/** Text helpers with the semantics of the .NET string operations that the tool
    relies on: white-space tests, Trim, Split, line splitting, Replace of one
    character and ASCII case mapping. Strings are sequences of chars. */
module Strings {

  datatype Option<T> = None | Some(value: T) {
    /** The value, or the given default when there is none. */
    function GetOr(default: T): T {
      if Some? then value else default
    }
  }

  /** The outcome of an operation that the source ends with an exception. */
  datatype Result<T, E> = Success(value: T) | Failure(error: E)

  /** Environment.NewLine on Windows, appended by StringBuilder.AppendLine. */
  const NEW_LINE: string := "\r\n"

  /** char.IsWhiteSpace: the characters of Unicode's White_Space property. */
  predicate IsWhiteSpace(c: char) {
    || c == ' '
    || ('\t' <= c <= '\r')
    || c == '\U{85}' || c == '\U{A0}' || c == '\U{1680}'
    || ('\U{2000}' <= c <= '\U{200A}')
    || c == '\U{2028}' || c == '\U{2029}' || c == '\U{202F}' || c == '\U{205F}' || c == '\U{3000}'
  }

  /** string.IsNullOrWhiteSpace of a non-null string: empty or white space only. */
  predicate IsBlank(s: string) {
    forall i :: 0 <= i < |s| ==> IsWhiteSpace(s[i])
  }

  /** string.IsNullOrEmpty of a possibly null string. */
  predicate IsNullOrEmpty(s: Option<string>) {
    s == None || s.value == ""
  }

  /** string.TrimStart(): drops the leading white space. */
  function TrimStart(s: string): (r: string)
    ensures |r| <= |s| && r == s[|s| - |r|..]
    ensures IsBlank(s[..|s| - |r|])
    ensures r == [] || !IsWhiteSpace(r[0])
  {
    if |s| > 0 && IsWhiteSpace(s[0]) then TrimStart(s[1..]) else s
  }

  /** string.TrimEnd(): drops the trailing white space. */
  function TrimEnd(s: string): (r: string)
    ensures |r| <= |s| && r == s[..|r|]
    ensures IsBlank(s[|r|..])
    ensures r == [] || !IsWhiteSpace(r[|r| - 1])
  {
    if |s| > 0 && IsWhiteSpace(s[|s| - 1]) then TrimEnd(s[..|s| - 1]) else s
  }

  /** string.Trim(): drops white space at both ends. */
  function Trim(s: string): string {
    TrimEnd(TrimStart(s))
  }

  /** Trim keeps a middle piece of its input, starting at `lead`, and removes only
      white space around it; the piece starts and ends with a non-white-space character. */
  lemma TrimShape(s: string) returns (lead: nat)
    ensures lead + |Trim(s)| <= |s|
    ensures Trim(s) == s[lead..lead + |Trim(s)|]
    ensures IsBlank(s[..lead]) && IsBlank(s[lead + |Trim(s)|..])
    ensures Trim(s) == [] || (!IsWhiteSpace(Trim(s)[0]) && !IsWhiteSpace(Trim(s)[|Trim(s)| - 1]))
  {
    var t := TrimStart(s);
    lead := MiddlePiece(s, t, TrimEnd(t));
  }

  /** A leading piece r of a trailing piece t of s is a middle piece of s: where it
      starts, and the white space on either side of it. */
  lemma MiddlePiece(s: string, t: string, r: string) returns (lead: nat)
    requires |t| <= |s| && t == s[|s| - |t|..] && IsBlank(s[..|s| - |t|])
    requires t == [] || !IsWhiteSpace(t[0])
    requires |r| <= |t| && r == t[..|r|] && IsBlank(t[|r|..])
    requires r == [] || !IsWhiteSpace(r[|r| - 1])
    ensures lead == |s| - |t| && lead + |r| <= |s|
    ensures r == s[lead..lead + |r|]
    ensures IsBlank(s[..lead]) && IsBlank(s[lead + |r|..])
    ensures r == [] || (!IsWhiteSpace(r[0]) && !IsWhiteSpace(r[|r| - 1]))
  {
    lead := |s| - |t|;
    assert s[lead + |r|..] == t[|r|..];
    assert r != [] ==> r[0] == t[0];
  }

  /** Trimming leaves nothing exactly when the text is blank. */
  lemma TrimEmptyIffBlank(s: string)
    ensures Trim(s) == "" <==> IsBlank(s)
  {
    var lead := TrimShape(s);
    if Trim(s) == "" {
      forall i | 0 <= i < |s| ensures IsWhiteSpace(s[i]) {
        if i < lead {
          assert s[..lead][i] == s[i];
        } else {
          assert s[lead..][i - lead] == s[i];
        }
      }
    } else {
      assert s[lead] == Trim(s)[0];
    }
  }

  /** Trimming twice is trimming once. */
  lemma TrimIdempotent(s: string)
    ensures Trim(Trim(s)) == Trim(s)
  {
    var r := Trim(s);
    var lead := TrimShape(s);
    if r != [] {
      assert TrimStart(r) == r;
      assert TrimEnd(r) == r;
    }
  }

  /** string.Split over a set of one-character separators: the maximal pieces
      between separators, empty pieces included. */
  function SplitAny(s: string, seps: set<char>): (parts: seq<string>)
    ensures |parts| >= 1
    ensures forall p | p in parts :: forall c | c in p :: c !in seps
    decreases |s|
  {
    if |s| == 0 then [""]
    else
      var rest := SplitAny(s[1..], seps);
      if s[0] in seps then [""] + rest
      else
        var head := [s[0]] + rest[0];
        assert rest[0] in rest;
        assert forall c | c in head :: c == s[0] || c in rest[0];
        assert forall c | c in head :: c !in seps;
        assert forall p | p in [head] + rest[1..] :: p == head || p in rest;
        [head] + rest[1..]
  }

  /** string.Split(char). */
  function Split(s: string, sep: char): seq<string> {
    SplitAny(s, {sep})
  }

  /** Appending is associative. */
  lemma AppendAssociative(a: string, b: string, c: string)
    ensures (a + b) + c == a + (b + c)
  {
  }

  /** string.EndsWith, ordinal. */
  predicate EndsWith(s: string, suffix: string) {
    |suffix| <= |s| && s[|s| - |suffix|..] == suffix
  }

  lemma EndsWithAppend(a: string, b: string)
    ensures EndsWith(a + b, b)
  {
    assert (a + b)[|a|..] == b;
  }

  /** Text built by appending pieces to a starts with a and ends with the last piece. */
  lemma AppendedShape(a: string, b: string, c: string, d: string, e: string)
    ensures a <= a + b + c + d + e && EndsWith(a + b + c + d + e, e)
  {
    assert (a + b + c + d + e)[..|a|] == a;
    EndsWithAppend(a + b + c + d, e);
  }

  /** Two pieces appended to a: the result starts with a and ends with both pieces. */
  lemma AppendedTwice(a: string, b: string, c: string)
    ensures a <= a + b + c && EndsWith(a + b + c, b + c)
  {
    AppendAssociative(a, b, c);
    EndsWithAppend(a, b + c);
  }

  /** string.Join(separator, parts). */
  function Join(parts: seq<string>, sep: string): string {
    if |parts| == 0 then ""
    else if |parts| == 1 then parts[0]
    else parts[0] + sep + Join(parts[1..], sep)
  }

  /** Appending one more part to a join adds the separator and the part. */
  lemma {:induction false} JoinSnoc(parts: seq<string>, x: string, sep: string)
    requires |parts| >= 1
    ensures Join(parts + [x], sep) == Join(parts, sep) + sep + x
  {
    if |parts| == 1 {
      assert parts + [x] == [parts[0], x];
    } else {
      assert (parts + [x])[1..] == parts[1..] + [x];
      JoinSnoc(parts[1..], x, sep);
    }
  }

  /** Number of occurrences of a character. */
  function Count(s: string, c: char): nat {
    if |s| == 0 then 0 else (if s[0] == c then 1 else 0) + Count(s[1..], c)
  }

  /** Splitting and joining with the same character gives back the text. */
  lemma {:induction false} JoinSplit(s: string, sep: char)
    ensures Join(Split(s, sep), [sep]) == s
  {
    if |s| > 0 {
      var rest := Split(s[1..], sep);
      JoinSplit(s[1..], sep);
      if s[0] == sep {
        assert Split(s, sep) == [""] + rest;
        assert ([""] + rest)[1..] == rest;
      } else {
        assert Split(s, sep) == [[s[0]] + rest[0]] + rest[1..];
        if |rest| > 1 {
          assert Join(rest, [sep]) == rest[0] + [sep] + Join(rest[1..], [sep]);
        }
      }
    }
  }

  /** Splitting on a character gives one piece more than it has occurrences. */
  lemma {:induction false} SplitCount(s: string, sep: char)
    ensures |Split(s, sep)| == Count(s, sep) + 1
  {
    if |s| > 0 {
      SplitCount(s[1..], sep);
    }
  }

  /** The non-empty elements of a list of strings, in order. */
  function NonEmpty(parts: seq<string>): (r: seq<string>)
    ensures forall p | p in r :: p != "" && p in parts
  {
    if |parts| == 0 then []
    else if parts[0] == "" then NonEmpty(parts[1..])
    else [parts[0]] + NonEmpty(parts[1..])
  }

  /** All the pieces, concatenated. */
  function Concat(parts: seq<string>): string {
    if |parts| == 0 then "" else parts[0] + Concat(parts[1..])
  }

  /** The text without the given characters. */
  function RemoveAll(s: string, cs: set<char>): (r: string)
    ensures forall c | c in r :: c !in cs
  {
    if |s| == 0 then "" else (if s[0] in cs then "" else [s[0]]) + RemoveAll(s[1..], cs)
  }

  /** Removing characters the text does not hold changes nothing. */
  lemma {:induction false} RemoveAllAbsent(s: string, cs: set<char>)
    requires forall i :: 0 <= i < |s| ==> s[i] !in cs
    ensures RemoveAll(s, cs) == s
  {
    if |s| > 0 {
      RemoveAllAbsent(s[1..], cs);
      assert s == [s[0]] + s[1..];
    }
  }

  /** Removing characters from two texts one after the other. */
  lemma {:induction false} RemoveAllAppend(a: string, b: string, cs: set<char>)
    ensures RemoveAll(a + b, cs) == RemoveAll(a, cs) + RemoveAll(b, cs)
  {
    if |a| > 0 {
      assert (a + b)[1..] == a[1..] + b;
      RemoveAllAppend(a[1..], b, cs);
    } else {
      assert a + b == b;
    }
  }

  /** Removing characters keeps every other character as often as the text holds it. */
  lemma {:induction false} RemoveAllCounts(s: string, cs: set<char>)
    ensures forall c :: Count(RemoveAll(s, cs), c) == if c in cs then 0 else Count(s, c)
  {
    if |s| > 0 {
      RemoveAllCounts(s[1..], cs);
      forall c ensures Count(RemoveAll(s, cs), c) == if c in cs then 0 else Count(s, c) {
        CountAppend(if s[0] in cs then "" else [s[0]], RemoveAll(s[1..], cs), c);
      }
    }
  }

  lemma {:induction false} CountAppend(a: string, b: string, c: char)
    ensures Count(a + b, c) == Count(a, c) + Count(b, c)
  {
    if |a| > 0 {
      assert (a + b)[1..] == a[1..] + b;
      CountAppend(a[1..], b, c);
    } else {
      assert a + b == b;
    }
  }

  /** The characters that end a line: carriage return and line feed. */
  const LINE_BREAKS: set<char> := {'\r', '\n'}

  /** text.Split(new[] { "\r\n", "\r", "\n" }, StringSplitOptions.RemoveEmptyEntries):
      since empty entries are dropped, "\r\n" and a lone "\r" or "\n" all separate lines
      the same way. */
  function Lines(s: string): (lines: seq<string>)
    ensures forall l | l in lines :: l != "" && forall c | c in l :: c !in LINE_BREAKS
  {
    NonEmpty(SplitAny(s, LINE_BREAKS))
  }

  lemma {:induction false} ConcatSplitAny(s: string, seps: set<char>)
    ensures Concat(SplitAny(s, seps)) == RemoveAll(s, seps)
  {
    if |s| > 0 {
      var rest := SplitAny(s[1..], seps);
      ConcatSplitAny(s[1..], seps);
      if s[0] in seps {
        assert ([""] + rest)[1..] == rest;
      } else {
        assert ([[s[0]] + rest[0]] + rest[1..])[1..] == rest[1..];
        assert Concat(rest) == rest[0] + Concat(rest[1..]);
      }
    }
  }

  lemma {:induction false} ConcatNonEmpty(parts: seq<string>)
    ensures Concat(NonEmpty(parts)) == Concat(parts)
  {
    if |parts| > 0 {
      ConcatNonEmpty(parts[1..]);
      if parts[0] != "" {
        assert ([parts[0]] + NonEmpty(parts[1..]))[1..] == NonEmpty(parts[1..]);
      }
    }
  }

  /** A character outside the removed set survives the removal. */
  lemma {:induction false} RemoveAllKeeps(s: string, cs: set<char>, i: nat)
    requires i < |s| && s[i] !in cs
    ensures RemoveAll(s, cs) != ""
  {
    if i > 0 {
      RemoveAllKeeps(s[1..], cs, i - 1);
    }
  }

  /** Text that is not blank has at least one line: the split cannot come out empty. */
  lemma NonBlankHasLines(s: string)
    requires !IsBlank(s)
    ensures |Lines(s)| >= 1
  {
    ConcatSplitAny(s, LINE_BREAKS);
    ConcatNonEmpty(SplitAny(s, LINE_BREAKS));
    var i :| 0 <= i < |s| && !IsWhiteSpace(s[i]);
    RemoveAllKeeps(s, LINE_BREAKS, i);
    assert Concat(Lines(s)) != "";
  }

  /** string.Replace(a, b) for one-character a and b. */
  function ReplaceChar(s: string, a: char, b: char): (r: string)
    ensures |r| == |s|
    ensures forall i :: 0 <= i < |s| ==> r[i] == if s[i] == a then b else s[i]
  {
    if |s| == 0 then "" else [if s[0] == a then b else s[0]] + ReplaceChar(s[1..], a, b)
  }

  /** Replacing a character the text does not hold changes nothing. */
  lemma ReplaceCharAbsent(s: string, a: char, b: char)
    requires forall i :: 0 <= i < |s| ==> s[i] != a
    ensures ReplaceChar(s, a, b) == s
  {
  }

  /** Upper case of an ASCII letter; every other character is unchanged. */
  function ToUpperAscii(c: char): char {
    if 'a' <= c <= 'z' then (c as int - 32) as char else c
  }

  /** Lower case of an ASCII letter; every other character is unchanged. */
  function ToLowerAscii(c: char): char {
    if 'A' <= c <= 'Z' then (c as int + 32) as char else c
  }

  function ToUpper(s: string): (r: string)
    ensures |r| == |s| && forall i :: 0 <= i < |s| ==> r[i] == ToUpperAscii(s[i])
  {
    if |s| == 0 then "" else [ToUpperAscii(s[0])] + ToUpper(s[1..])
  }

  function ToLower(s: string): (r: string)
    ensures |r| == |s| && forall i :: 0 <= i < |s| ==> r[i] == ToLowerAscii(s[i])
  {
    if |s| == 0 then "" else [ToLowerAscii(s[0])] + ToLower(s[1..])
  }

  /** Text of upper-case ASCII letters only. */
  predicate IsUpperCaseWord(w: string) {
    forall i :: 0 <= i < |w| ==> 'A' <= w[i] <= 'Z'
  }

  /** Upper-casing leaves a word of upper-case letters as it is. */
  lemma UpperCaseWordUnchanged(w: string)
    requires IsUpperCaseWord(w)
    ensures ToUpper(w) == w
  {
  }

  /** string.Equals(a, b, StringComparison.OrdinalIgnoreCase) for texts compared against
      an ASCII word. */
  predicate EqualsIgnoreCase(a: string, b: string) {
    ToUpper(a) == ToUpper(b)
  }
}
