/** The technology ledger of `TechsStorage` (src/tech-detector/techs-storage.ts):
    `.github/techs.json`, a map from keys to lists of technology names. The
    key `user` holds hand-curated names; every other key is an hourly
    `DD-MM-YYYY-HH` stamp holding the names detected in that hour. */
module Ledger {
  import opened Seqs
  import opened Text

  type Techs = map<string, seq<string>>

  const UserKey: string := "user"

  /** What reading and parsing `techs.json` gives: no file, text that is not
      a JSON object, or an object whose entries are lists of names (an
      absent or `null` `user` entry is absent from the map). */
  datatype TechsFile = Missing | Unparsable | Parsed(entries: Techs)

  /** The ledger a new repository starts with. */
  const EmptyLedger: Techs := map[UserKey := []]

  /** `loadTechs`: `{user: []}` when the file is missing or unparsable,
      otherwise the parsed entries with `user` filled in when absent. */
  function LoadTechs(file: TechsFile): (t: Techs)
    ensures UserKey in t
    ensures !file.Parsed? ==> t == EmptyLedger
    ensures file.Parsed? ==> t.Keys == file.entries.Keys + {UserKey}
    ensures file.Parsed? ==> forall k | k in file.entries :: t[k] == file.entries[k]
    ensures file.Parsed? && UserKey !in file.entries ==> t[UserKey] == []
  {
    match file
    case Parsed(entries) =>
      if UserKey in entries then entries else entries[UserKey := []]
    case _ => EmptyLedger
  }

  /** A saved ledger that has a `user` entry loads back unchanged. */
  lemma LoadSaved(t: Techs)
    requires UserKey in t
    ensures LoadTechs(Parsed(t)) == t
  {
  }

  /** `x` is recorded under some key other than `user`. */
  predicate InSomeStamp(t: Techs, x: string) {
    exists k | k in t && k != UserKey :: x in t[k]
  }

  /** `x` counts as known: in a stamp entry, or in `user` unless excluded. */
  predicate Recorded(t: Techs, x: string, excludeUser: bool) {
    InSomeStamp(t, x) || (!excludeUser && UserKey in t && x in t[UserKey])
  }

  /** The names recorded under the stamp keys among `keys`. */
  function StampedIn(t: Techs, keys: set<string>): set<string>
    requires keys <= t.Keys
  {
    set k, x | k in keys && k != UserKey && x in t[k] :: x
  }

  /** Adding one key to those walked adds its names, unless it is `user`. */
  lemma StampedInStep(t: Techs, keys: set<string>, key: string)
    requires keys <= t.Keys && key in t
    ensures StampedIn(t, keys + {key}) ==
      StampedIn(t, keys) + (if key != UserKey then Elems(t[key]) else {})
  {
    var lhs, rhs := StampedIn(t, keys + {key}), StampedIn(t, keys) + (if key != UserKey then Elems(t[key]) else {});
    forall x | x in lhs ensures x in rhs {
      var k :| k in keys + {key} && k != UserKey && x in t[k];
    }
  }

  /** `StampedInStep` for the keys not yet walked. */
  lemma WalkedOneMore(t: Techs, todo: set<string>, key: string)
    requires todo <= t.Keys && key in todo
    ensures StampedIn(t, t.Keys - (todo - {key})) ==
      StampedIn(t, t.Keys - todo) + (if key != UserKey then Elems(t[key]) else {})
  {
    StampedInStep(t, t.Keys - todo, key);
    assert (t.Keys - todo) + {key} == t.Keys - (todo - {key});
  }

  /** The set `getAllTechs(techs, excludeUser)` returns. */
  function AllTechs(t: Techs, excludeUser: bool): (all: set<string>)
    ensures forall x :: x in all <==> Recorded(t, x, excludeUser)
  {
    var stamped := StampedIn(t, t.Keys);
    if !excludeUser && UserKey in t then stamped + Elems(t[UserKey]) else stamped
  }

  /** Leaving `user` out gives a subset; what it drops are `user` names. */
  lemma ExcludeUserSubset(t: Techs)
    ensures AllTechs(t, true) <= AllTechs(t, false)
    ensures forall x | x in AllTechs(t, false) - AllTechs(t, true) ::
      UserKey in t && x in t[UserKey]
  {
  }

  /** `for (const x of names) all.add(x)` */
  method AddEach(all: set<string>, names: seq<string>) returns (all': set<string>)
    ensures all' == all + Elems(names)
  {
    all' := all;
    var i := 0;
    while i < |names|
      invariant 0 <= i <= |names|
      invariant all' == all + Elems(names[..i])
    {
      assert names[..i + 1] == names[..i] + [names[i]];
      all' := all' + {names[i]};
      i := i + 1;
    }
    assert names[..i] == names;
  }

  /** `getAllTechs`: walks the entries, adding each stamp entry's names to a
      set, then the `user` names unless they are excluded. */
  method GetAllTechs(t: Techs, excludeUser: bool) returns (all: set<string>)
    ensures all == AllTechs(t, excludeUser)
  {
    all := {};
    var todo := t.Keys;
    while todo != {}
      invariant todo <= t.Keys
      invariant all == StampedIn(t, t.Keys - todo)
      decreases |todo|
    {
      var key :| key in todo;
      WalkedOneMore(t, todo, key);
      if !(excludeUser && key == UserKey) && key != UserKey {
        all := AddEach(all, t[key]);
      }
      todo := todo - {key};
    }
    assert t.Keys - todo == t.Keys;
    if !excludeUser && UserKey in t {
      all := AddEach(all, t[UserKey]);
    }
  }

  /** `getUserTechs`: the hand-curated names. */
  function GetUserTechs(t: Techs): (names: seq<string>)
    requires UserKey in t
    ensures names == t[UserKey]
    ensures forall x | x in names :: x in AllTechs(t, false)
    ensures forall x | x in names && !InSomeStamp(t, x) :: x !in AllTechs(t, true)
  {
    t[UserKey]
  }

  /** `hasTech`: whether the ledger in the file records `x`, `user` included. */
  function HasTech(file: TechsFile, x: string): (has: bool)
    ensures has <==> Recorded(LoadTechs(file), x, false)
  {
    x in AllTechs(LoadTechs(file), false)
  }

  /** A missing or unparsable file records nothing. */
  lemma HasTechEmpty(file: TechsFile, x: string)
    requires !file.Parsed?
    ensures !HasTech(file, x)
  {
    assert LoadTechs(file) == EmptyLedger;
    assert x !in EmptyLedger[UserKey];
  }

  /** The fields of `new Date()` the stamp uses: day of month, 0-based month,
      full year and hour. */
  datatype Clock = Clock(day: int, month: int, year: int, hour: int)

  predicate ValidClock(c: Clock) {
    1 <= c.day <= 31 && 0 <= c.month <= 11 && 0 <= c.hour <= 23
  }

  /** `String(n).padStart(2, "0")` */
  function Pad2(n: nat): string {
    PadStart2(NatToString(n))
  }

  /** `generateTimestamp`: `DD-MM-YYYY-HH` with a 1-based month. */
  function Timestamp(c: Clock): (stamp: string)
    requires ValidClock(c)
    ensures |stamp| == |IntToString(c.year)| + 9
    ensures stamp[..2] == Pad2(c.day) && stamp[2] == '-'
    ensures stamp[3..5] == Pad2(c.month + 1) && stamp[5] == '-'
    ensures stamp[6..|stamp| - 3] == IntToString(c.year)
    ensures stamp[|stamp| - 3] == '-' && stamp[|stamp| - 2..] == Pad2(c.hour)
  {
    Pad2Digits(c.day, c.day);
    Pad2Digits(c.month + 1, c.month + 1);
    Pad2Digits(c.hour, c.hour);
    Pad2(c.day) + "-" + Pad2(c.month + 1) + "-" + IntToString(c.year) + "-" + Pad2(c.hour)
  }

  /** Day, month and hour are two digits each. */
  lemma TimestampDigits(c: Clock)
    requires ValidClock(c)
    ensures var s := Timestamp(c);
      IsDigit(s[0]) && IsDigit(s[1]) && IsDigit(s[3]) && IsDigit(s[4])
      && IsDigit(s[|s| - 2]) && IsDigit(s[|s| - 1])
  {
    var s := Timestamp(c);
    Pad2Digits(c.day, c.day);
    Pad2Digits(c.month + 1, c.month + 1);
    Pad2Digits(c.hour, c.hour);
    assert s[0] == s[..2][0] && s[1] == s[..2][1];
    assert s[3] == s[3..5][0] && s[4] == s[3..5][1];
    assert s[|s| - 2] == s[|s| - 2..][0] && s[|s| - 1] == s[|s| - 2..][1];
  }

  /** Distinct clock readings give distinct stamps, and no stamp is `user`. */
  lemma TimestampInjective(a: Clock, b: Clock)
    requires ValidClock(a) && ValidClock(b)
    ensures Timestamp(a) == Timestamp(b) ==> a == b
    ensures Timestamp(a) != UserKey
  {
    var s, u := Timestamp(a), Timestamp(b);
    if s == u {
      Pad2Digits(a.day, b.day);
      Pad2Digits(a.month + 1, b.month + 1);
      Pad2Digits(a.hour, b.hour);
      assert |IntToString(a.year)| == |IntToString(b.year)|;
      IntToStringInjective(a.year, b.year);
    }
    TimestampDigits(a);
  }

  /** `newTechs.filter(tech => !existing.has(tech))`: order and repetitions
      of the kept names are those of `names`. */
  function Unrecorded(names: seq<string>, existing: set<string>): (kept: seq<string>)
    ensures |kept| <= |names|
    ensures forall x :: x in kept <==> x in names && x !in existing
    ensures kept == [] <==> forall x | x in names :: x in existing
  {
    if names == [] then []
    else if names[0] !in existing then [names[0]] + Unrecorded(names[1..], existing)
    else Unrecorded(names[1..], existing)
  }

  /** The names `addNewTechs` writes: those the ledger does not know yet,
      `user` names counting as known. */
  function NewNames(t: Techs, names: seq<string>): seq<string> {
    Unrecorded(names, AllTechs(t, false))
  }

  /** The ledger after `addNewTechs`: the new names become the entry of the
      current stamp, replacing any entry it had; with no new names the
      ledger is left as it was. */
  function AddNew(t: Techs, names: seq<string>, stamp: string): Techs {
    var added := NewNames(t, names);
    if added != [] then t[stamp := added] else t
  }

  /** `addNewTechs` writes exactly the unknown names under the stamp, and
      every other entry, `user` included, is kept. */
  lemma AddNewEntries(t: Techs, names: seq<string>, stamp: string)
    requires stamp != UserKey
    ensures var t' := AddNew(t, names, stamp);
      (forall k | k in t && k != stamp :: k in t' && t'[k] == t[k])
      && t'.Keys <= t.Keys + {stamp}
      && (NewNames(t, names) != [] ==>
            stamp in t' && t'[stamp] == NewNames(t, names)
            && (forall x | x in t'[stamp] :: x in names && x !in AllTechs(t, false)))
      && (NewNames(t, names) == [] ==> t' == t)
  {
  }

  /** When the hour's stamp is new, no recorded name is lost and every given
      name is recorded afterwards. */
  lemma AddNewRecordsAll(t: Techs, names: seq<string>, stamp: string)
    requires stamp != UserKey && stamp !in t
    ensures AllTechs(AddNew(t, names, stamp), false) == AllTechs(t, false) + Elems(names)
  {
    var t' := AddNew(t, names, stamp);
    var added := NewNames(t, names);
    forall x ensures x in AllTechs(t', false) <==> x in AllTechs(t, false) + Elems(names) {
      if x in AllTechs(t, false) && InSomeStamp(t, x) {
        var k :| k in t && k != UserKey && x in t[k];
        assert k in t' && t'[k] == t[k];
      }
      if x in AllTechs(t', false) && InSomeStamp(t', x) {
        var k :| k in t' && k != UserKey && x in t'[k];
        if k != stamp {
          assert x in t[k];
        }
      }
      if x in names && x !in AllTechs(t, false) {
        assert x in added;
        assert stamp in t' && x in t'[stamp];
      }
    }
  }

  /** ... so a second call in the same hour with the same names adds nothing. */
  lemma AddNewTwice(t: Techs, names: seq<string>, stamp: string)
    requires stamp != UserKey && stamp !in t
    ensures AddNew(AddNew(t, names, stamp), names, stamp) == AddNew(t, names, stamp)
  {
    AddNewRecordsAll(t, names, stamp);
    var t' := AddNew(t, names, stamp);
    assert forall x | x in names :: x in AllTechs(t', false);
  }

  /** The stamp's entry is replaced, not merged: a name recorded only under
      the current stamp and not given again is lost when new names arrive. */
  lemma AddNewReplacesStamp(t: Techs, names: seq<string>, stamp: string, x: string)
    requires stamp != UserKey && stamp in t && x in t[stamp] && x !in names
    requires forall k | k in t && k != stamp :: x !in t[k]
    requires NewNames(t, names) != []
    ensures x in AllTechs(t, false)
    ensures x !in AllTechs(AddNew(t, names, stamp), false)
  {
    var t' := AddNew(t, names, stamp);
    assert x !in t'[stamp];
  }

  /** The ledger `updateTimestamps` saves: `user` as it was and one stamp
      entry holding `merged`. */
  function Compacted(t: Techs, stamp: string, merged: seq<string>): Techs
    requires UserKey in t
  {
    map[UserKey := t[UserKey], stamp := merged]
  }

  /** After compaction the ledger has exactly two keys, `user` is unchanged,
      and every name it recorded before it still records. */
  lemma CompactedKeeps(t: Techs, stamp: string, merged: seq<string>)
    requires UserKey in t && stamp != UserKey
    requires Elems(merged) == AllTechs(t, true)
    ensures var c := Compacted(t, stamp, merged);
      c.Keys == {UserKey, stamp} && |c.Keys| == 2 && c[UserKey] == t[UserKey]
      && AllTechs(c, true) == AllTechs(t, true)
      && AllTechs(c, false) == AllTechs(t, false)
  {
    var c := Compacted(t, stamp, merged);
    assert {UserKey, stamp} == {UserKey} + {stamp};
    forall x ensures x in AllTechs(c, true) <==> x in merged {
      if x in merged {
        assert x in c[stamp];
      }
    }
  }

  /** `[...set]`: the members of a set, each once, in some order. */
  method ListOf(s: set<string>) returns (xs: seq<string>)
    ensures NoDup(xs) && Elems(xs) == s && |xs| == |s|
  {
    xs := [];
    var todo := s;
    while todo != {}
      invariant todo <= s && NoDup(xs)
      invariant forall x :: x in xs <==> x in s - todo
      decreases |todo|
    {
      var x :| x in todo;
      assert x !in xs;
      xs := xs + [x];
      todo := todo - {x};
    }
    assert Elems(xs) == s;
    NoDupCard(xs);
  }

  /** `TechsStorage`: the ledger file of one repository. A save that fails
      leaves the file as it was and reports failure. */
  class TechsStorage {
    var file: TechsFile

    constructor(file0: TechsFile)
      ensures file == file0
    {
      file := file0;
    }

    /** `hasTech` */
    function Has(x: string): (has: bool)
      reads this
      ensures has <==> Recorded(LoadTechs(file), x, false)
    {
      HasTech(file, x)
    }

    /** `addNewTechs`: load, keep the unknown names, and save them under the
        stamp of `now` when there are any; otherwise nothing is written. */
    method AddNewTechs(names: seq<string>, now: Clock, writeFails: bool) returns (failed: bool)
      requires ValidClock(now)
      modifies this
      ensures var t := LoadTechs(old(file));
        if NewNames(t, names) == [] then file == old(file) && !failed
        else if writeFails then file == old(file) && failed
        else file == Parsed(AddNew(t, names, Timestamp(now))) && !failed
    {
      var t := LoadTechs(file);
      var stamp := Timestamp(now);
      var existing := GetAllTechs(t, false);
      var added := Unrecorded(names, existing);
      failed := false;
      if added != [] {
        t := t[stamp := added];
        if writeFails {
          failed := true;
        } else {
          file := Parsed(t);
        }
      }
    }

    /** `updateTimestamps`: move every non-user name under the stamp of
        `now`, keeping `user`; `merged` is the list written. */
    method UpdateTimestamps(now: Clock, writeFails: bool) returns (merged: seq<string>, failed: bool)
      requires ValidClock(now)
      modifies this
      ensures var t := LoadTechs(old(file));
        NoDup(merged) && Elems(merged) == AllTechs(t, true)
        && failed == writeFails
        && (writeFails ==> file == old(file))
        && (!writeFails ==> file == Parsed(Compacted(t, Timestamp(now), merged)))
    {
      var t := LoadTechs(file);
      var users := t[UserKey];
      var others := GetAllTechs(t, true);
      var stamp := Timestamp(now);
      merged := ListOf(others);
      var compacted := map[UserKey := users, stamp := merged];
      failed := writeFails;
      if !writeFails {
        file := Parsed(compacted);
      }
    }
  }
}
