/** String operations shared by the tools. */
module Text {
  predicate EndsWith(s: string, suffix: string) { |s| >= |suffix| && s[|s| - |suffix|..] == suffix }

  function Replaced(s: string, from: char, to: char): string {
    if s == "" then "" else [if s[0] == from then to else s[0]] + Replaced(s[1..], from, to)
  }

  lemma {:induction false} ReplacedAt(s: string, from: char, to: char)
    ensures |Replaced(s, from, to)| == |s|
    ensures forall k :: 0 <= k < |s| ==> Replaced(s, from, to)[k] == if s[k] == from then to else s[k]
  {
    if s != "" { ReplacedAt(s[1..], from, to); }
  }

  /** A path with forward slashes and without a leading `./`. */
  function Normalized(path: string): string {
    var p := Replaced(path, '\\', '/');
    if |p| >= 2 && p[0] == '.' && p[1] == '/' then p[2..] else p
  }

  /** A leading `./`, in either spelling, is dropped, and every other backslash becomes a slash. */
  lemma NormalizedExactly(path: string)
    ensures var dropped := if |path| >= 2 && path[0] == '.' && path[1] in {'/', '\\'} then 2 else 0;
      && |Normalized(path)| == |path| - dropped
      && forall k :: 0 <= k < |path| - dropped ==>
           Normalized(path)[k] == if path[k + dropped] == '\\' then '/' else path[k + dropped]
  {
    ReplacedAt(path, '\\', '/');
  }
}
