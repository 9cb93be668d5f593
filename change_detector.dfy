/** `ChangeDetector` (src/utils/change-detector.ts): decides whether the
    action has anything to do, by comparing a hash of the sorted dependency
    names and the modification time of `techs.json` with what the previous
    run recorded. Files are replaced by their parsed contents, the clock by
    a number of milliseconds. */
module ChangeDetector {
  import opened Wrappers
  import opened Text

  // ---------------------------------------------------------------------
  // simpleHash
  // ---------------------------------------------------------------------

  const TwoTo32 := 0x1_0000_0000
  const TwoTo31 := 0x8000_0000

  predicate IsInt32(h: int) { -TwoTo31 <= h < TwoTo31 }

  /** ECMAScript `ToInt32`: the 32-bit two's-complement value congruent to
      `x`. */
  function ToInt32(x: int): (h: int)
    ensures IsInt32(h)
    ensures (h - x) % TwoTo32 == 0
    ensures IsInt32(x) ==> h == x
  {
    var m := x % TwoTo32;
    if m >= TwoTo31 then m - TwoTo32 else m
  }

  /** Congruent numbers have the same 32-bit value. */
  lemma ToInt32Congruent(a: int, b: int, k: int)
    requires a - b == k * TwoTo32
    ensures ToInt32(a) == ToInt32(b)
  {
    assert a % TwoTo32 == b % TwoTo32 by {
      assert a == b + k * TwoTo32;
    }
  }

  /** One step of the loop as written: `(hash << 5) - hash + char`, where
      `<<` first takes `hash` and the shifted value to 32 bits, then
      `hash & hash` takes the sum to 32 bits. */
  function Step(h: int, c: int): (next: int)
    ensures IsInt32(next)
  {
    ToInt32(ToInt32(h * 32) - h + c)
  }

  /** The step is `h := ToInt32(31 * h + c)`. */
  lemma StepIsTimes31(h: int, c: int)
    ensures Step(h, c) == ToInt32(31 * h + c)
  {
    var s := ToInt32(h * 32);
    var k := (s - h * 32) / TwoTo32;
    assert s - h * 32 == k * TwoTo32;
    ToInt32Congruent(s - h + c, 31 * h + c, k);
  }

  /** The hash of a sequence of code points: the loop's value of `hash` after
      the last one. */
  function HashOf(codes: seq<int>): (h: int)
    ensures IsInt32(h)
  {
    if codes == [] then 0 else Step(HashOf(codes[..|codes| - 1]), codes[|codes| - 1])
  }

  /** The polynomial `c0 * 31^(n-1) + ... + c(n-1)`, an independent
      definition of the hash before the 32-bit cut. */
  function Polynomial(codes: seq<int>): int {
    if codes == [] then 0 else 31 * Polynomial(codes[..|codes| - 1]) + codes[|codes| - 1]
  }

  /** The hash is the polynomial taken to 32 bits: the intermediate cuts
      change nothing. */
  lemma {:induction false} HashIsPolynomial(codes: seq<int>)
    ensures HashOf(codes) == ToInt32(Polynomial(codes))
  {
    if codes != [] {
      var init, c := codes[..|codes| - 1], codes[|codes| - 1];
      HashIsPolynomial(init);
      var h, p := HashOf(init), Polynomial(init);
      StepIsTimes31(h, c);
      var k := (h - p) / TwoTo32;
      assert h - p == k * TwoTo32;
      ToInt32Congruent(31 * h + c, 31 * p + c, 31 * k);
    }
  }

  /** The lower-case hexadecimal digit of `d`. */
  function HexDigit(d: nat): (c: char)
    requires d < 16
  {
    if d < 10 then ('0' as int + d) as char else ('a' as int + d - 10) as char
  }

  lemma HexDigitInjective(a: nat, b: nat)
    requires a < 16 && b < 16 && HexDigit(a) == HexDigit(b)
    ensures a == b
  {
  }

  /** `n.toString(16)` for a non-negative `n`: no leading zero. */
  function NatToHex(n: nat): (s: string)
    ensures |s| >= 1 && s[0] != '-'
    decreases n
  {
    if n < 16 then [HexDigit(n)] else NatToHex(n / 16) + [HexDigit(n % 16)]
  }

  lemma {:induction false} NatToHexInjective(m: nat, n: nat)
    requires NatToHex(m) == NatToHex(n)
    ensures m == n
    decreases m
  {
    var s := NatToHex(m);
    if m < 16 && n < 16 {
      HexDigitInjective(m, n);
    } else if m >= 16 && n >= 16 {
      assert NatToHex(m / 16) == s[..|s| - 1] == NatToHex(n / 16);
      NatToHexInjective(m / 16, n / 16);
      HexDigitInjective(m % 16, n % 16);
    }
  }

  /** `h.toString(16)`: a `-` before the magnitude of a negative number. */
  function Hex(h: int): (s: string)
    ensures |s| >= 1
    ensures s[0] == '-' <==> h < 0
  {
    if h >= 0 then NatToHex(h) else "-" + NatToHex(-h)
  }

  /** Different numbers print differently, so comparing hash strings is
      comparing hashes. */
  lemma HexInjective(a: int, b: int)
    requires Hex(a) == Hex(b)
    ensures a == b
  {
    if a >= 0 && b >= 0 {
      NatToHexInjective(a, b);
    } else if a < 0 && b < 0 {
      assert NatToHex(-a) == Hex(a)[1..] == NatToHex(-b);
      NatToHexInjective(-a, -b);
    }
  }

  /** The hash of the empty string is `0`. */
  lemma EmptyHash()
    ensures Hex(HashOf([])) == "0"
  {
  }

  /** `simpleHash`, over the code points the loop reads. */
  method SimpleHash(codes: seq<int>) returns (digest: string)
    ensures digest == Hex(HashOf(codes))
  {
    var hash := 0;
    for i := 0 to |codes|
      invariant hash == HashOf(codes[..i])
    {
      assert codes[..i + 1][..i] == codes[..i];
      var c := codes[i];
      var shifted := ToInt32(hash * 32);
      hash := shifted - hash + c;
      hash := ToInt32(hash);
    }
    assert codes[..|codes|] == codes;
    digest := Hex(hash);
  }

  // ---------------------------------------------------------------------
  // getCurrentDependenciesHash
  // ---------------------------------------------------------------------

  /** `a <= b` in the order of `Array.prototype.sort`: lexicographic by
      character. */
  predicate LexLeq(a: string, b: string)
    decreases |a|
  {
    a == [] || (b != [] && (a[0] < b[0] || (a[0] == b[0] && LexLeq(a[1..], b[1..]))))
  }

  lemma {:induction false} LexTotal(a: string, b: string)
    ensures LexLeq(a, b) || LexLeq(b, a)
    decreases |a|
  {
    if a != [] && b != [] && a[0] == b[0] {
      LexTotal(a[1..], b[1..]);
    }
  }

  lemma {:induction false} LexAntisymmetric(a: string, b: string)
    requires LexLeq(a, b) && LexLeq(b, a)
    ensures a == b
    decreases |a|
  {
    if a != [] {
      LexAntisymmetric(a[1..], b[1..]);
      assert a == [a[0]] + a[1..] && b == [b[0]] + b[1..];
    }
  }

  lemma {:induction false} LexTransitive(a: string, b: string, c: string)
    requires LexLeq(a, b) && LexLeq(b, c)
    ensures LexLeq(a, c)
    decreases |a|
  {
    if a != [] && a[0] == b[0] && b[0] == c[0] {
      LexTransitive(a[1..], b[1..], c[1..]);
    }
  }

  /** Each name is at most its successor. */
  predicate Sorted(s: seq<string>) {
    forall i | 0 <= i < |s| - 1 :: LexLeq(s[i], s[i + 1])
  }

  /** Inserts `x` before the first name it is at most. */
  function Insert(x: string, s: seq<string>): (r: seq<string>)
    requires Sorted(s)
    ensures Sorted(r)
    ensures multiset(r) == multiset(s) + multiset{x}
    ensures r != [] && (r[0] == x || (s != [] && r[0] == s[0]))
  {
    if s == [] then [x]
    else if LexLeq(x, s[0]) then [x] + s
    else
      LexTotal(x, s[0]);
      var rest := Insert(x, s[1..]);
      assert s == [s[0]] + s[1..];
      [s[0]] + rest
  }

  /** `names.sort()` */
  function Sort(names: seq<string>): (sorted: seq<string>)
    ensures Sorted(sorted)
    ensures multiset(sorted) == multiset(names)
  {
    if names == [] then []
    else
      assert names == names[..|names| - 1] + [names[|names| - 1]];
      Insert(names[|names| - 1], Sort(names[..|names| - 1]))
  }

  /** The first of a sorted sequence is at most every one of its names. */
  lemma {:induction false} SortedHeadLeast(s: seq<string>, i: nat)
    requires Sorted(s) && i < |s|
    ensures LexLeq(s[0], s[i])
    decreases i
  {
    if i == 0 {
      LexTotal(s[0], s[0]);
    } else {
      SortedHeadLeast(s, i - 1);
      LexTransitive(s[0], s[i - 1], s[i]);
    }
  }

  /** Dropping the first name. */
  lemma TailMultiset(a: seq<string>)
    requires a != []
    ensures multiset(a[1..]) == multiset(a) - multiset{a[0]}
    ensures Sorted(a) ==> Sorted(a[1..])
  {
    assert a == [a[0]] + a[1..];
  }

  /** Two sorted sequences with the same names begin with the same name. */
  lemma SameHead(a: seq<string>, b: seq<string>)
    requires Sorted(a) && Sorted(b) && multiset(a) == multiset(b) && a != []
    ensures b != [] && a[0] == b[0]
  {
    assert a[0] in multiset(b);
    var i :| 0 <= i < |b| && b[i] == a[0];
    assert b[0] in multiset(a);
    var j :| 0 <= j < |a| && a[j] == b[0];
    SortedHeadLeast(a, j);
    SortedHeadLeast(b, i);
    LexAntisymmetric(a[0], b[0]);
  }

  /** Two sorted sequences with the same names are equal. */
  lemma {:induction false} SortedUnique(a: seq<string>, b: seq<string>)
    requires Sorted(a) && Sorted(b) && multiset(a) == multiset(b)
    ensures a == b
    decreases |a|
  {
    if a == [] {
      assert |b| == |multiset(b)| == 0;
    } else {
      SameHead(a, b);
      TailMultiset(a);
      TailMultiset(b);
      SortedUnique(a[1..], b[1..]);
      assert a == [a[0]] + a[1..] && b == [b[0]] + b[1..];
    }
  }

  /** The code points of a string. */
  function Codes(s: string): (codes: seq<int>)
    ensures |codes| == |s|
    ensures forall i | 0 <= i < |s| :: codes[i] == s[i] as int
  {
    if s == [] then [] else Codes(s[..|s| - 1]) + [s[|s| - 1] as int]
  }

  /** The hash recorded for a list of dependency names. */
  function DependenciesHash(names: seq<string>): string {
    Hex(HashOf(Codes(Join(Sort(names), ','))))
  }

  /** The order of the names does not matter. */
  lemma HashIgnoresOrder(a: seq<string>, b: seq<string>)
    requires multiset(a) == multiset(b)
    ensures DependenciesHash(a) == DependenciesHash(b)
  {
    SortedUnique(Sort(a), Sort(b));
  }

  /** `getCurrentDependenciesHash`, given the names the parser found. */
  method CurrentDependenciesHash(names: seq<string>) returns (digest: string)
    ensures digest == DependenciesHash(names)
  {
    var joined := Join(Sort(names), ',');
    digest := SimpleHash(Codes(joined));
  }

  // ---------------------------------------------------------------------
  // shouldRun
  // ---------------------------------------------------------------------

  /** The parsed last-run file: `depsHash` is `None` when the field is not
      a string, `time` is `None` when the timestamp is not a valid date. */
  datatype LastRun = LastRun(depsHash: Option<string>, time: Option<int>)

  /** `getFileMtime`: a missing `techs.json` counts as time 0. */
  function Mtime(stat: Option<int>): (t: int)
    ensures stat.None? ==> t == 0
    ensures stat.Some? ==> t == stat.value
  {
    match stat
    case None => 0
    case Some(t) => t
  }

  /** `shouldRun`: `lastRun` is `None` when the last-run file is missing or
      does not parse, `names` are the dependency names found now and
      `techsStat` is the modification time of `techs.json`, if any. */
  function ShouldRun(skipChangeDetection: bool, lastRun: Option<LastRun>, names: seq<string>, techsStat: Option<int>): (run: bool)
    ensures skipChangeDetection ==> run
    ensures lastRun.None? ==> run
    ensures !run <==>
      !skipChangeDetection && lastRun.Some?
      && lastRun.value.depsHash == Some(DependenciesHash(names))
      && lastRun.value.time.Some? && Mtime(techsStat) <= lastRun.value.time.value
  {
    if skipChangeDetection then true
    else match lastRun
      case None => true
      case Some(data) =>
        if data.depsHash == Some(DependenciesHash(names)) then
          match data.time
          case None => true
          case Some(lastRunTime) => !(Mtime(techsStat) <= lastRunTime)
        else true
  }

  /** `saveLastRunData`: the record written at time `now`. */
  function SaveLastRun(names: seq<string>, now: int): (data: LastRun)
    ensures data.depsHash.Some? && data.time == Some(now)
  {
    LastRun(Some(DependenciesHash(names)), Some(now))
  }

  /** Right after a save, with the same dependencies in any order and
      `techs.json` not touched since, the next run is skipped; a change to
      the dependency hash makes it run. */
  lemma SavedRunIsSkipped(saved: seq<string>, names: seq<string>, now: int, techsStat: Option<int>)
    requires multiset(saved) == multiset(names)
    requires Mtime(techsStat) <= now
    ensures !ShouldRun(false, Some(SaveLastRun(saved, now)), names, techsStat)
  {
    HashIgnoresOrder(saved, names);
  }

  lemma ChangedHashRuns(saved: seq<string>, names: seq<string>, now: int, techsStat: Option<int>)
    requires HashOf(Codes(Join(Sort(saved), ','))) != HashOf(Codes(Join(Sort(names), ',')))
    ensures ShouldRun(false, Some(SaveLastRun(saved, now)), names, techsStat)
  {
    if DependenciesHash(saved) == DependenciesHash(names) {
      HexInjective(HashOf(Codes(Join(Sort(saved), ','))), HashOf(Codes(Join(Sort(names), ','))));
    }
  }
}
