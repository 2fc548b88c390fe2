/** UpdateChecker: compares dotted version numbers, reads the release version from a
    release tag and renders the outcome of an update check. The HTTP request and the
    JSON property lookups are not part of this model; their results are parameters. */
module UpdateChecker {
  import opened Strings
  import opened Numbers

  // ---------------------------------------------------------------------------
  // Version comparison

  /** Component i of a split version: its 32-bit value, or 0 when the component is
      missing or is not a 32-bit integer. */
  function Component(parts: seq<string>, i: nat): int {
    if i < |parts| then TryParseInt32(parts[i]).GetOr(0) else 0
  }

  function Max(a: nat, b: nat): nat {
    if a < b then b else a
  }

  /** The comparison loop from component i on: the first component that differs
      decides, and running out of components means equal. */
  function CompareFrom(parts1: seq<string>, parts2: seq<string>, i: nat): (r: int)
    ensures r in {-1, 0, 1}
    decreases Max(|parts1|, |parts2|) - i
  {
    if i >= Max(|parts1|, |parts2|) then 0
    else if Component(parts1, i) < Component(parts2, i) then -1
    else if Component(parts1, i) > Component(parts2, i) then 1
    else CompareFrom(parts1, parts2, i + 1)
  }

  /** CompareVersions: -1 if v1 is older, 0 if equal, 1 if v1 is newer. */
  function CompareVersions(v1: string, v2: string): (r: int)
    ensures r in {-1, 0, 1}
  {
    CompareFrom(Split(v1, '.'), Split(v2, '.'), 0)
  }

  /** The first index at or after i where the two component lists differ, if any. */
  predicate FirstDifferenceAt(parts1: seq<string>, parts2: seq<string>, i: nat, k: nat) {
    i <= k < Max(|parts1|, |parts2|)
    && Component(parts1, k) != Component(parts2, k)
    && forall j :: i <= j < k ==> Component(parts1, j) == Component(parts2, j)
  }

  /** The comparison is decided by the first differing component: the result is 0
      exactly when every component agrees, and -1 or 1 exactly when there is such a
      component and it is smaller or larger. */
  lemma CompareFromDecidedByFirstDifference(parts1: seq<string>, parts2: seq<string>, i: nat)
    ensures CompareFrom(parts1, parts2, i) == 0 <==>
      forall j :: i <= j < Max(|parts1|, |parts2|) ==> Component(parts1, j) == Component(parts2, j)
    ensures CompareFrom(parts1, parts2, i) == -1 <==>
      exists k :: FirstDifferenceAt(parts1, parts2, i, k) && Component(parts1, k) < Component(parts2, k)
    ensures CompareFrom(parts1, parts2, i) == 1 <==>
      exists k :: FirstDifferenceAt(parts1, parts2, i, k) && Component(parts1, k) > Component(parts2, k)
  {
    CompareFromZeroIffAgree(parts1, parts2, i);
    CompareFromSignAtFirstDifference(parts1, parts2, i);
  }

  /** The comparison is 0 exactly when every remaining component agrees. */
  lemma {:induction false} CompareFromZeroIffAgree(parts1: seq<string>, parts2: seq<string>, i: nat)
    ensures CompareFrom(parts1, parts2, i) == 0 <==>
      forall j :: i <= j < Max(|parts1|, |parts2|) ==> Component(parts1, j) == Component(parts2, j)
    decreases Max(|parts1|, |parts2|) - i
  {
    if i < Max(|parts1|, |parts2|) {
      CompareFromZeroIffAgree(parts1, parts2, i + 1);
    }
  }

  /** A non-zero comparison has the sign of the first differing component. */
  lemma {:induction false} CompareFromSignAtFirstDifference(parts1: seq<string>, parts2: seq<string>, i: nat)
    ensures forall k | FirstDifferenceAt(parts1, parts2, i, k) ::
      CompareFrom(parts1, parts2, i) == (if Component(parts1, k) < Component(parts2, k) then -1 else 1)
    ensures CompareFrom(parts1, parts2, i) != 0 ==> exists k :: FirstDifferenceAt(parts1, parts2, i, k)
    decreases Max(|parts1|, |parts2|) - i
  {
    if i < Max(|parts1|, |parts2|) {
      CompareFromSignAtFirstDifference(parts1, parts2, i + 1);
      if Component(parts1, i) != Component(parts2, i) {
        assert FirstDifferenceAt(parts1, parts2, i, i);
        forall k | FirstDifferenceAt(parts1, parts2, i, k) ensures k == i {
        }
      } else {
        forall k | FirstDifferenceAt(parts1, parts2, i, k) ensures FirstDifferenceAt(parts1, parts2, i + 1, k) {
        }
        if CompareFrom(parts1, parts2, i) != 0 {
          var k :| FirstDifferenceAt(parts1, parts2, i + 1, k);
          assert FirstDifferenceAt(parts1, parts2, i, k);
        }
      }
    }
  }

  /** Every version equals itself. */
  lemma {:induction false} CompareFromReflexive(parts: seq<string>, i: nat)
    ensures CompareFrom(parts, parts, i) == 0
    decreases Max(|parts|, |parts|) - i
  {
    if i < |parts| {
      CompareFromReflexive(parts, i + 1);
    }
  }

  /** Swapping the versions negates the result. */
  lemma {:induction false} CompareFromAntisymmetric(parts1: seq<string>, parts2: seq<string>, i: nat)
    ensures CompareFrom(parts1, parts2, i) == -CompareFrom(parts2, parts1, i)
    decreases Max(|parts1|, |parts2|) - i
  {
    if i < Max(|parts1|, |parts2|) {
      CompareFromAntisymmetric(parts1, parts2, i + 1);
    }
  }

  lemma CompareVersionsReflexive(v: string)
    ensures CompareVersions(v, v) == 0
  {
    CompareFromReflexive(Split(v, '.'), 0);
  }

  lemma CompareVersionsAntisymmetric(v1: string, v2: string)
    ensures CompareVersions(v1, v2) == -CompareVersions(v2, v1)
  {
    CompareFromAntisymmetric(Split(v1, '.'), Split(v2, '.'), 0);
  }

  /** A trailing ".0" changes nothing: missing components count as 0, so "1.0" and
      "1.0.0" are the same version. */
  lemma TrailingZeroIgnored(v: string)
    ensures CompareVersions(v, v + ".0") == 0
  {
    var parts := Split(v, '.');
    SplitAtSeparator(v, "0", '.');
    assert v + ".0" == v + ['.'] + "0";
    SplitWithoutSeparator("0", '.');
    assert TryParseInt32("0") == Some(0) by {
      assert ParseInteger("0") == Some(0);
    }
    assert Component(parts + ["0"], |parts|) == 0;
    CompareFromExtraZero(parts, |parts|, 0);
  }

  /** Splitting at a separator splits the two sides separately. */
  lemma {:induction false} SplitAtSeparator(a: string, b: string, sep: char)
    ensures Split(a + [sep] + b, sep) == Split(a, sep) + Split(b, sep)
  {
    if |a| == 0 {
      assert (a + [sep] + b)[1..] == b;
    } else {
      SplitAtSeparator(a[1..], b, sep);
      SplitPrepend(a[0], a[1..], b, sep);
      assert [a[0]] + a[1..] == a;
    }
  }

  /** One more character in front of the left side, given how the shorter text splits. */
  lemma SplitPrepend(c: char, t: string, b: string, sep: char)
    requires Split(t + [sep] + b, sep) == Split(t, sep) + Split(b, sep)
    ensures Split([c] + t + [sep] + b, sep) == Split([c] + t, sep) + Split(b, sep)
  {
    var long := t + [sep] + b;
    assert [c] + t + [sep] + b == [c] + long;
    SplitCons(c, long, sep);
    SplitCons(c, t, sep);
  }

  /** How a character in front changes the pieces: a separator starts a new empty
      piece, any other character joins the first piece. */
  lemma SplitCons(c: char, s: string, sep: char)
    ensures var rest := Split(s, sep);
      Split([c] + s, sep) == if c == sep then [""] + rest else [[c] + rest[0]] + rest[1..]
  {
    assert ([c] + s)[1..] == s;
  }

  /** A text without the separator is a single piece. */
  lemma {:induction false} SplitWithoutSeparator(s: string, sep: char)
    requires sep !in s
    ensures Split(s, sep) == [s]
  {
    if |s| > 0 {
      assert sep !in s[1..];
      SplitWithoutSeparator(s[1..], sep);
      assert [s[0]] + s[1..] == s;
    }
  }

  /** Appending a zero component leaves the comparison with the original at 0. */
  lemma {:induction false} CompareFromExtraZero(parts: seq<string>, zero: nat, i: nat)
    requires zero == |parts| && Component(parts + ["0"], zero) == 0
    ensures CompareFrom(parts, parts + ["0"], i) == 0
    decreases |parts| + 1 - i
  {
    if i <= |parts| {
      assert Component(parts, i) == Component(parts + ["0"], i);
      CompareFromExtraZero(parts, zero, i + 1);
    }
  }

  /** An update is offered when the current version compares below the latest. */
  predicate IsNewer(currentVersion: string, latestVersion: string) {
    CompareVersions(currentVersion, latestVersion) < 0
  }

  /** Never an update to the same version, and never in both directions. */
  lemma IsNewerStrict(v1: string, v2: string)
    ensures !IsNewer(v1, v1)
    ensures IsNewer(v1, v2) ==> !IsNewer(v2, v1)
    ensures !IsNewer(v1, v2) && !IsNewer(v2, v1) ==> CompareVersions(v1, v2) == 0
  {
    CompareVersionsReflexive(v1);
    CompareVersionsAntisymmetric(v1, v2);
  }

  // ---------------------------------------------------------------------------
  // The release tag

  /** tagName.TrimStart('v'): every leading lower-case 'v' removed. */
  function TrimLeadingV(tagName: string): (r: string)
    ensures |r| <= |tagName| && r == tagName[|tagName| - |r|..]
    ensures forall i :: 0 <= i < |tagName| - |r| ==> tagName[i] == 'v'
    ensures r == [] || r[0] != 'v'
  {
    if |tagName| > 0 && tagName[0] == 'v' then TrimLeadingV(tagName[1..]) else tagName
  }

  /** Trimming twice trims nothing more. */
  lemma TrimLeadingVIdempotent(tagName: string)
    ensures TrimLeadingV(TrimLeadingV(tagName)) == TrimLeadingV(tagName)
  {
  }

  /** The release version of the tag_name property, null when the tag is null. */
  function ReleaseVersion(tagName: Option<string>): Option<string> {
    match tagName
    case Some(t) => Some(TrimLeadingV(t))
    case None => None
  }

  // ---------------------------------------------------------------------------
  // The result

  datatype UpdateCheckResult = UpdateCheckResult(
    isUpdateAvailable: bool,
    currentVersion: string,
    availableVersion: Option<string>,
    downloadUrl: Option<string>,
    releaseNotes: Option<string>,
    errorMessage: Option<string>)
  {
    /** The status line: the error first, then an available update, then up to date.
        The arrow is the three characters that stand in the source file. */
    function ToString(): string {
      if !IsNullOrEmpty(errorMessage) then "Error: " + errorMessage.value
      else if isUpdateAvailable then
        "Update available: " + currentVersion + " â†’ " + availableVersion.GetOr("")
      else "You are on the latest version (" + currentVersion + ")"
    }
  }

  const NO_VERSION_MESSAGE: string := "Could not parse version from response"

  /** The result built once the release JSON has been read: tagName, downloadUrl
      and releaseNotes are what the JSON lookups returned. */
  function ReleaseCheck(currentVersion: string, tagName: Option<string>,
                        downloadUrl: Option<string>, releaseNotes: Option<string>): UpdateCheckResult
  {
    match ReleaseVersion(tagName)
    case None => UpdateCheckResult(false, currentVersion, None, None, None, Some(NO_VERSION_MESSAGE))
    case Some(latestVersion) =>
      UpdateCheckResult(IsNewer(currentVersion, latestVersion), currentVersion, Some(latestVersion),
        downloadUrl, releaseNotes, None)
  }

  /** An update is reported exactly when a tag was read and, without its leading 'v's,
      it is a newer version; a missing tag is an error; a release with the current
      version is never an update, with or without its 'v'. */
  lemma ReleaseCheckOutcome(currentVersion: string, tagName: Option<string>,
                            downloadUrl: Option<string>, releaseNotes: Option<string>)
    ensures var r := ReleaseCheck(currentVersion, tagName, downloadUrl, releaseNotes);
      && r.currentVersion == currentVersion
      && (r.isUpdateAvailable <==> tagName.Some? && IsNewer(currentVersion, TrimLeadingV(tagName.value)))
      && (r.errorMessage.Some? <==> tagName.None?)
      && (tagName == Some(currentVersion) && (currentVersion == [] || currentVersion[0] != 'v') ==> !r.isUpdateAvailable)
      && (tagName == Some("v" + currentVersion) && (currentVersion == [] || currentVersion[0] != 'v') ==> !r.isUpdateAvailable)
  {
    if tagName.Some? {
      IsNewerStrict(currentVersion, currentVersion);
      assert ("v" + currentVersion)[1..] == currentVersion;
    }
  }

  /** The status line tells the three cases apart: it starts with "Error: " exactly
      when there is an error message, which follows in full; it starts with "Update
      available: " exactly when there is no error and an update is available. */
  lemma ToStringCases(r: UpdateCheckResult)
    ensures "Error: " <= r.ToString() <==> !IsNullOrEmpty(r.errorMessage)
    ensures !IsNullOrEmpty(r.errorMessage) ==> r.ToString()[7..] == r.errorMessage.value
    ensures "Update available: " <= r.ToString() <==> IsNullOrEmpty(r.errorMessage) && r.isUpdateAvailable
    ensures IsNullOrEmpty(r.errorMessage) && !r.isUpdateAvailable ==>
      "You are on the latest version (" <= r.ToString() && EndsWith(r.ToString(), ")")
  {
    var s := r.ToString();
    if !IsNullOrEmpty(r.errorMessage) {
      assert s[..7] == "Error: ";
      assert !("Update available: " <= s) by {
        assert s[0] != "Update available: "[0];
      }
    } else if r.isUpdateAvailable {
      assert s[..18] == "Update available: ";
      assert !("Error: " <= s) by {
        assert s[0] != "Error: "[0];
      }
    } else {
      assert s[..31] == "You are on the latest version (";
      assert !("Error: " <= s) by {
        assert s[0] != "Error: "[0];
      }
      assert !("Update available: " <= s) by {
        assert s[0] != "Update available: "[0];
      }
      EndsWithAppend("You are on the latest version (" + r.currentVersion, ")");
    }
  }
}
