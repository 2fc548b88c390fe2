/** The updater's command-line lookup: the value that follows a flag. */
module Updater {
  import opened Strings

  /** Index i is the first occurrence of argName that has an argument after it. */
  predicate FirstFlagAt(args: seq<string>, argName: string, i: int) {
    0 <= i < |args| - 1 && args[i] == argName && forall j :: 0 <= j < i ==> args[j] != argName
  }

  /** GetArgValue: the argument right after the first occurrence of argName, or
      null when argName is absent or only occurs as the last argument. Matching is
      exact, and the value is returned even when it is itself a flag. */
  method GetArgValue(args: seq<string>, argName: string) returns (r: Option<string>)
    ensures r.Some? <==> exists i :: 0 <= i < |args| - 1 && args[i] == argName
    ensures r.Some? ==> exists i :: FirstFlagAt(args, argName, i) && r.value == args[i + 1]
    ensures r.Some? ==> exists k :: 1 <= k < |args| && args[k] == r.value
  {
    var i := 0;
    while i < |args| - 1
      invariant 0 <= i <= |args|
      invariant forall j :: 0 <= j < i ==> args[j] != argName
    {
      if args[i] == argName {
        r := Some(args[i + 1]);
        assert FirstFlagAt(args, argName, i);
        return;
      }
      i := i + 1;
    }
    r := None;
  }
}
