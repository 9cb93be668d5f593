/** The regular-expression rewriting stages shared by badge normalisation
    (techs-storage.ts) and topic normalisation (tech-detector.ts): replace
    separators by `-`, drop every character outside `[a-z0-9-]`, collapse
    runs of `-`, and strip one leading and one trailing `-`. */
module Tags {
  import opened Text

  /** Every character is one of `[a-z0-9-]`. */
  predicate AllTagChars(s: string) {
    forall i | 0 <= i < |s| :: IsTagChar(s[i])
  }

  /** No `--` anywhere. */
  predicate NoDoubleHyphen(s: string) {
    forall i | 0 <= i < |s| - 1 :: s[i] == '-' ==> s[i + 1] != '-'
  }

  /** Neither the first nor the last character is `-`. */
  predicate NoEdgeHyphen(s: string) {
    s != [] ==> s[0] != '-' && s[|s| - 1] != '-'
  }

  /** The shape every non-empty badge has. */
  predicate IsTagShaped(s: string) {
    AllTagChars(s) && NoDoubleHyphen(s) && NoEdgeHyphen(s)
  }

  /** `s.replaceAll(<class>, "-")`, where the class is given by `sep`. */
  function Hyphenate(s: string, sep: char -> bool): (r: string)
    ensures |r| == |s|
    ensures forall i | 0 <= i < |s| :: r[i] == (if sep(s[i]) then '-' else s[i])
  {
    if s == [] then [] else [if sep(s[0]) then '-' else s[0]] + Hyphenate(s[1..], sep)
  }

  /** `s.replaceAll(/[^a-z0-9-]/g, "")` */
  function KeepTagChars(s: string): (r: string)
    ensures AllTagChars(r)
    ensures |r| <= |s|
    ensures AllTagChars(s) ==> r == s
    ensures forall c | c in r :: c in s
  {
    if s == [] then []
    else if IsTagChar(s[0]) then [s[0]] + KeepTagChars(s[1..])
    else KeepTagChars(s[1..])
  }

  /** `s.replaceAll(/-+/g, "-")` */
  function CollapseHyphens(s: string): (r: string)
    ensures NoDoubleHyphen(r)
    ensures |r| <= |s| && (r == [] <==> s == [])
    ensures r != [] ==> r[0] == s[0]
    ensures AllTagChars(s) ==> AllTagChars(r)
    ensures NoDoubleHyphen(s) ==> r == s
    decreases |s|
  {
    if |s| < 2 then s
    else if s[0] == '-' && s[1] == '-' then CollapseHyphens(s[1..])
    else [s[0]] + CollapseHyphens(s[1..])
  }

  /** `s.replaceAll(/^-|-$/g, "")`: the global match removes one `-` at the
      start and one at the end, never overlapping. */
  function TrimHyphens(s: string): (r: string)
    ensures |r| <= |s|
    ensures AllTagChars(s) ==> AllTagChars(r)
    ensures NoDoubleHyphen(s) ==> NoDoubleHyphen(r) && NoEdgeHyphen(r)
    ensures NoEdgeHyphen(s) ==> r == s
  {
    var t := if |s| > 0 && s[0] == '-' then s[1..] else s;
    if |t| > 0 && t[|t| - 1] == '-' then t[..|t| - 1] else t
  }

  /** The last three stages together always give a tag-shaped string. */
  lemma CleanShape(s: string)
    ensures IsTagShaped(TrimHyphens(CollapseHyphens(KeepTagChars(s))))
  {
  }

  /** ... and leave a tag-shaped string as it is. */
  lemma CleanFixed(s: string)
    requires IsTagShaped(s)
    ensures TrimHyphens(CollapseHyphens(KeepTagChars(s))) == s
  {
  }
}
