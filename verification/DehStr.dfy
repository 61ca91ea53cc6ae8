/** The DeHackEd string table: open addressing with linear probing, and a growth step
    that re-adds every entry through the ordinary insertion, so growth can nest. */
module DehStr {
  import opened Bits

  /** A C string without its terminator; plain char may be signed or not. */
  type cchar = c: int | -128 <= c < 256 && c != 0 witness 1

  type cstring = seq<cchar>

  const WORD: nat := 0x1_0000_0000

  /** glib's string hash, in unsigned 32-bit arithmetic. */
  function HashFrom(h: nat, s: seq<cchar>): nat {
    if s == [] then h
    else
      var g := HashFrom(h, s[..|s| - 1]);
      (g * 32 - g + s[|s| - 1]) % WORD
  }

  function StrHash(s: cstring): nat {
    if s == [] then 0 else HashFrom(s[0] % WORD, s[1..])
  }

  lemma HashSnoc(h: nat, s: seq<cchar>, c: cchar)
    ensures HashFrom(h, s + [c]) == (HashFrom(h, s) * 32 - HashFrom(h, s) + c) % WORD
  {
    assert (s + [c])[..|s|] == s;
  }

  method ComputeHash(s: cstring) returns (h: nat)
    ensures h == StrHash(s)
  {
    h := if s == [] then 0 else s[0] % WORD;
    if s != [] {
      var p := 1;
      while p < |s|
        invariant 1 <= p <= |s| && h == HashFrom(s[0] % WORD, s[1..p])
      {
        HashSnoc(s[0] % WORD, s[1..p], s[p]);
        assert s[1..p + 1] == s[1..p] + [s[p]];
        h := (h * 32 - h + s[p]) % WORD;
        p := p + 1;
      }
      assert s[1..] == s[1..p];
    }
  }

  class Sub {
    const fromText: cstring
    var toText: cstring

    constructor (fromText: cstring, toText: cstring)
      ensures this.fromText == fromText && this.toText == toText
    {
      this.fromText, this.toText := fromText, toText;
    }
  }

  // ---------- probing ----------

  /** The d-th slot a probe from start looks at. */
  function Path(len: nat, start: nat, d: nat): (i: nat)
    requires len > 0
    ensures i < len
  {
    (start + d) % len
  }

  function Home(len: nat, key: cstring): nat
    requires len > 0
  {
    StrHash(key) % len
  }

  /** No free slot on the first d steps of a probe. */
  ghost predicate Busy(slots: seq<Sub?>, start: nat, d: nat)
    requires |slots| > 0
  {
    forall e :: 0 <= e < d ==> slots[Path(|slots|, start, e)] != null
  }

  /** The entry in slot i is found by probing for its key. */
  ghost predicate Reachable(slots: seq<Sub?>, i: nat)
    requires i < |slots| && slots[i] != null
  {
    var home := Home(|slots|, slots[i].fromText);
    exists d :: 0 <= d < |slots| && i == Path(|slots|, home, d) && Busy(slots, home, d)
  }

  ghost function Live(slots: seq<Sub?>): set<Sub> {
    set s: Sub | s in slots
  }

  ghost predicate Table(slots: seq<Sub?>) {
    && |slots| >= 16
    && (forall i :: 0 <= i < |slots| && slots[i] != null ==> Reachable(slots, i))
    && (forall i, j :: 0 <= i < |slots| && 0 <= j < |slots| && i != j && slots[i] != null && slots[j] != null ==>
          slots[i].fromText != slots[j].fromText)
    && |Live(slots)| < |slots|
  }

  /** A probe visits every slot. */
  lemma PathReaches(len: nat, start: nat, i: nat) returns (d: nat)
    requires start < len && i < len
    ensures d < len && Path(len, start, d) == i
  {
    d := if i >= start then i - start else i + len - start;
    if i >= start {
      DivModUnique(start + d, len, 0, i);
    } else {
      DivModUnique(start + d, len, 1, i);
    }
  }

  lemma {:induction false} FullTable(slots: seq<Sub?>, n: nat)
    requires n <= |slots|
    requires forall i, j :: 0 <= i < j < n && slots[i] != null && slots[j] != null ==>
      slots[i].fromText != slots[j].fromText
    ensures (exists i :: 0 <= i < n && slots[i] == null) || |Live(slots[..n])| == n
  {
    if n > 0 {
      FullTable(slots, n - 1);
      assert slots[..n] == slots[..n - 1] + [slots[n - 1]];
      if slots[n - 1] != null {
        assert Live(slots[..n]) == Live(slots[..n - 1]) + {slots[n - 1]};
        if (forall i :: 0 <= i < n ==> slots[i] != null) {
          assert slots[n - 1] !in Live(slots[..n - 1]);
        }
      }
    }
  }

  /** A table always has a free slot, so probing ends. */
  lemma FreeSlot(slots: seq<Sub?>) returns (f: nat)
    requires Table(slots)
    ensures f < |slots| && slots[f] == null
  {
    FullTable(slots, |slots|);
    assert slots[..|slots|] == slots;
    f :| 0 <= f < |slots| && slots[f] == null;
  }

  /** Each of the first d slots of a probe holds an entry for another key. */
  ghost predicate Passed(slots: seq<Sub?>, key: cstring, d: nat)
    requires |slots| > 0
  {
    var home := Home(|slots|, key);
    forall e :: 0 <= e < d ==>
      slots[Path(|slots|, home, e)] != null && slots[Path(|slots|, home, e)].fromText != key
  }

  /** A probe that runs into a free slot has missed nothing. */
  lemma ProbeMisses(slots: seq<Sub?>, key: cstring, d: nat)
    requires Table(slots) && Passed(slots, key, d)
    requires slots[Path(|slots|, Home(|slots|, key), d)] == null
    ensures forall s :: s in Live(slots) ==> s.fromText != key
  {
    forall s | s in Live(slots)
      ensures s.fromText != key
    {
      var i :| 0 <= i < |slots| && slots[i] == s;
      assert Reachable(slots, i);
      var home := Home(|slots|, s.fromText);
      var e :| 0 <= e < |slots| && i == Path(|slots|, home, e) && Busy(slots, home, e);
    }
  }

  lemma InsertLive(slots: seq<Sub?>, sub: Sub, at: nat)
    requires at < |slots| && slots[at] == null
    ensures Live(slots[at := sub]) == Live(slots) + {sub}
  {
    var slots' := slots[at := sub];
    assert slots'[at] == sub;
    forall s | s in Live(slots)
      ensures s in Live(slots')
    {
      var i :| 0 <= i < |slots| && slots[i] == s;
      assert slots'[i] == s;
    }
  }

  lemma InsertReachable(slots: seq<Sub?>, sub: Sub, at: nat, i: nat)
    requires at < |slots| && slots[at] == null && i < |slots| && i != at && slots[i] != null
    requires Reachable(slots, i)
    ensures Reachable(slots[at := sub], i)
  {
    var slots' := slots[at := sub];
    var h := Home(|slots|, slots[i].fromText);
    var e :| 0 <= e < |slots| && i == Path(|slots|, h, e) && Busy(slots, h, e);
    assert Busy(slots', h, e);
  }

  /** Filling the free slot where a probe for a new key ends keeps the table. */
  lemma InsertKeeps(slots: seq<Sub?>, sub: Sub, d: nat)
    requires Table(slots) && |Live(slots)| + 1 < |slots| && d < |slots|
    requires forall s :: s in Live(slots) ==> s.fromText != sub.fromText
    requires var home := Home(|slots|, sub.fromText);
             Busy(slots, home, d) && slots[Path(|slots|, home, d)] == null
    ensures var slots' := slots[Path(|slots|, Home(|slots|, sub.fromText), d) := sub];
            Table(slots') && Live(slots') == Live(slots) + {sub}
  {
    var home := Home(|slots|, sub.fromText);
    var at := Path(|slots|, home, d);
    var slots' := slots[at := sub];
    InsertLive(slots, sub, at);
    assert Busy(slots', home, d);
    assert Reachable(slots', at);
    forall i | 0 <= i < |slots'| && i != at && slots'[i] != null
      ensures Reachable(slots', i) && slots'[i].fromText != sub.fromText
    {
      InsertReachable(slots, sub, at, i);
      assert slots[i] in Live(slots);
    }
  }

  // ---------- the counters ----------

  /** hash_table_entries and hash_table_length. Growth re-adds without resetting the
      first, so it runs ahead of the true number of entries. */
  datatype Counters = Counters(entries: nat, length: nat)

  /** Adding one entry to a table that holds live entries. */
  function AddCount(c: Counters, live: nat): (r: Counters)
    requires c.length > 0
    ensures r.length >= c.length && r.entries > c.entries
    decreases live, 1
  {
    var grown := if c.entries * 10 / c.length > 6 then GrowCount(c.(length := 2 * c.length), live, live) else c;
    grown.(entries := grown.entries + 1)
  }

  /** Re-adding the first n of live entries, each into a table that holds fewer. */
  function GrowCount(c: Counters, live: nat, n: nat): (r: Counters)
    requires c.length > 0 && n <= live
    ensures r.length >= c.length && r.entries >= c.entries + n
    decreases live, 0, n
  {
    if n == 0 then c else AddCount(GrowCount(c, live, n - 1), n - 1)
  }

  lemma {:induction false} AddWithoutGrowth(c: Counters, n: nat, live: nat)
    requires c.length > 0 && n <= live && (c.entries + n) * 10 <= 7 * c.length
    ensures GrowCount(c, live, n) == c.(entries := c.entries + n)
    decreases n
  {
    if n > 0 {
      AddWithoutGrowth(c, n - 1, live);
      LowLoad(c.entries + n - 1, c.length);
    }
  }

  lemma LowLoad(entries: nat, length: nat)
    requires length > 0
    ensures entries * 10 < 7 * length ==> entries * 10 / length <= 6
    ensures entries * 10 >= 7 * length ==> entries * 10 / length > 6
  {
    var q, r := entries * 10 / length, entries * 10 % length;
    assert entries * 10 == q * length + r;
    if q >= 7 {
      assert q * length >= 7 * length;
    } else {
      assert q * length <= 6 * length;
    }
  }

  /** A growth that nests: re-adding the twelve entries of the first table fills the counter
      of a table of 32 before the last is in, so that one goes through a table of 64. */
  lemma FirstGrowthNests(c: Counters, live: nat)
    requires c == Counters(12, 16) && live == 12
    ensures AddCount(c, live) == Counters(36, 64)
  {
    hide GrowCount;
    var twice := Counters(12, 32);
    AddWithoutGrowth(twice, 10, live);
    LowLoad(12, 16);
    LowLoad(22, 32);
    LowLoad(23, 32);
    LastReadds(twice, live);
    AddWithoutGrowth(Counters(23, 64), 11, 11);
  }

  lemma LastReadds(c: Counters, live: nat)
    requires c.length > 0 && live == 12
    ensures GrowCount(c, live, 12) == AddCount(AddCount(GrowCount(c, live, 10), 10), 11)
  {
    assert GrowCount(c, live, 12) == AddCount(GrowCount(c, live, 11), 11);
  }

  /** The counters after n new keys. */
  function CountersAfter(n: nat): (c: Counters)
    ensures c.length > 0
  {
    if n == 0 then Counters(0, 16) else AddCount(CountersAfter(n - 1), n - 1)
  }

  /** Adding one more entry grows the table inside the growth it starts: every growth doubles it. */
  predicate Nests(c: Counters, live: nat)
    requires c.length > 0
  {
    AddCount(c, live).length > 2 * c.length
  }

  lemma {:induction false} FirstTable(n: nat)
    requires n <= 12
    ensures CountersAfter(n) == Counters(n, 16)
  {
    if n > 0 {
      FirstTable(n - 1);
      LowLoad(n - 1, 16);
    }
  }

  /** The counter is at most at the threshold, and runs ahead by enough that re-adding stays below. */
  predicate Ahead(c: Counters, live: nat) {
    live + 2 <= c.entries && (c.entries - 1) * 10 < 7 * c.length
  }

  /** One growth leaves the counter ahead and never nests. */
  lemma AheadStays(c: Counters, live: nat)
    requires c.length > 0 && Ahead(c, live)
    ensures AddCount(c, live) == if c.entries * 10 < 7 * c.length then Counters(c.entries + 1, c.length)
                                 else Counters(c.entries + live + 1, 2 * c.length)
    ensures Ahead(AddCount(c, live), live + 1)
  {
    hide GrowCount;
    LowLoad(c.entries, c.length);
    if c.entries * 10 >= 7 * c.length {
      AddWithoutGrowth(c.(length := 2 * c.length), live, live);
    }
  }

  lemma {:induction false} AheadFrom13(n: nat)
    requires n >= 13
    ensures Ahead(CountersAfter(n), n)
  {
    hide AddCount;
    if n == 13 {
      AfterThirteen(n);
    } else {
      AheadFrom13(n - 1);
      AheadStays(CountersAfter(n - 1), n - 1);
    }
  }

  lemma AfterThirteen(n: nat)
    requires n == 13
    ensures CountersAfter(n) == Counters(36, 64)
  {
    FirstTable(n - 1);
    FirstGrowthNests(CountersAfter(n - 1), n - 1);
  }

  /** Of all growths in all runs exactly one nests: the one that the thirteenth new key starts. */
  lemma NestsOnce(n: nat)
    ensures Nests(CountersAfter(n), n) <==> n + 1 == 13
  {
    hide AddCount;
    if n < 12 {
      FirstTable(n);
      FirstTable(n + 1);
    } else if n == 12 {
      FirstTable(n);
      AfterThirteen(n + 1);
    } else {
      AheadFrom13(n);
      AheadStays(CountersAfter(n), n);
    }
  }

  // ---------- the table object ----------

  ghost function Keys(subs: set<Sub>): set<cstring> {
    set s | s in subs :: s.fromText
  }

  lemma KeysAdd(subs: set<Sub>, sub: Sub)
    ensures Keys(subs + {sub}) == Keys(subs) + {sub.fromText}
    ensures forall s :: s in subs ==> s.fromText in Keys(subs)
  {
  }

  class Substitutions {
    /** Null until the first replacement, when hash_table_length is still -1. */
    var hashTable: array?<Sub?>
    var entries: nat

    ghost predicate Ok()
      reads this, hashTable
    {
      hashTable != null && Table(hashTable[..]) && |Live(hashTable[..])| <= entries
    }

    ghost function Subs(): set<Sub>
      reads this, hashTable
    {
      if hashTable == null then {} else Live(hashTable[..])
    }

    /** The table stands for the map m. */
    ghost predicate Stands(m: map<cstring, cstring>)
      reads this, hashTable, Subs()
    {
      && (hashTable == null || Ok())
      && (forall s :: s in Subs() ==> s.fromText in m && m[s.fromText] == s.toText)
      && m.Keys == Keys(Subs())
    }

    /** The counters, those of the first table while there is none. */
    function Count(): Counters
      reads this
    {
      if hashTable == null then Counters(0, 16) else Counters(entries, hashTable.Length)
    }

    /** The counters are those of as many new keys as there are entries. */
    ghost predicate Counted()
      reads this, hashTable
    {
      Count() == CountersAfter(|Subs()|)
    }

    constructor ()
      ensures Stands(map[]) && hashTable == null && Counted()
    {
      hashTable, entries := null, 0;
    }

    /** The entry for a key, if there is one. */
    method SubstitutionForString(key: cstring) returns (r: Sub?)
      requires hashTable == null || Ok()
      ensures r == null ==> forall s :: s in Subs() ==> s.fromText != key
      ensures r != null ==> r in Subs() && r.fromText == key
    {
      hide Path, Table, Live, StrHash;
      if hashTable == null {
        return null;
      }
      ghost var slots := hashTable[..];
      TableSize(slots);
      var hash := ComputeHash(key);
      var start := hash % hashTable.Length;
      var entry := start;
      ghost var f := FreeSlot(slots);
      ghost var last := PathReaches(|slots|, start, f);
      ghost var d := 0;
      BusyNone(slots, start);
      while hashTable[entry] != null
        invariant d <= last && entry == Path(|slots|, start, d) && Passed(slots, key, d)
        decreases last - d
      {
        if hashTable[entry].fromText == key {
          InLive(slots, entry);
          return hashTable[entry];
        }
        NextSlot(|slots|, start, d);
        entry := (entry + 1) % hashTable.Length;
        d := d + 1;
      }
      ProbeMisses(slots, key, d);
      return null;
    }

    /** Looks a string up; a string without a replacement stands for itself. */
    method DehString(key: cstring, ghost m: map<cstring, cstring>) returns (r: cstring)
      requires Stands(m)
      ensures r == if key in m then m[key] else key
    {
      var sub := SubstitutionForString(key);
      if sub != null {
        return sub.toText;
      } else {
        return key;
      }
    }

    method InitHashTable()
      modifies this
      ensures Ok() && fresh(hashTable) && Subs() == {} && entries == 0 && hashTable.Length == 16
    {
      entries := 0;
      hashTable := new Sub?[16](_ => null);
    }

    /** Moves every entry to a table of twice the size. */
    method IncreaseHashtable()
      requires Ok()
      modifies this
      ensures Ok() && fresh(hashTable) && Subs() == old(Subs())
      ensures hashTable.Length >= 2 * old(hashTable.Length)
      ensures Counters(entries, hashTable.Length)
           == GrowCount(Counters(old(entries), 2 * old(hashTable.Length)), |old(Subs())|, |old(Subs())|)
      decreases |Subs()|, 0
    {
      hide Table, Live, AddCount, GrowCount;
      var oldTable := hashTable;
      var oldLength := hashTable.Length;
      ghost var slots := oldTable[..];
      TableSize(slots);
      hashTable := new Sub?[2 * oldLength](_ => null);
      EmptyTable(hashTable[..]);
      NoneLive(slots);
      GrowNone(Counters(entries, 2 * oldLength), |Live(slots)|);
      ghost var live := |Live(slots)|;
      var i := 0;
      while i < oldLength
        invariant i <= oldLength && oldTable[..] == slots && oldTable != hashTable
        invariant Ok() && fresh(hashTable) && hashTable.Length >= 2 * oldLength
        invariant Subs() == Live(slots[..i])
        invariant |Subs()| <= live
        invariant Counters(entries, hashTable.Length)
               == GrowCount(Counters(old(entries), 2 * oldLength), live, |Subs()|)
      {
        NextLive(slots, i);
        if oldTable[i] != null {
          GrowStep(Counters(old(entries), 2 * oldLength), live, |Subs()|);
          AddToHashtable(oldTable[i]);
        }
        i := i + 1;
      }
      assert slots[..i] == slots;
    }

    /** Adds an entry whose key is new. */
    method AddToHashtable(sub: Sub)
      requires Ok() && forall s :: s in Subs() ==> s.fromText != sub.fromText
      modifies this, hashTable
      ensures Ok() && Subs() == old(Subs()) + {sub}
      ensures hashTable == old(hashTable) || fresh(hashTable)
      ensures Counters(entries, hashTable.Length)
           == AddCount(Counters(old(entries), old(hashTable.Length)), |old(Subs())|)
      decreases |Subs()|, 1
    {
      hide Path, Table, Live, StrHash, Busy;
      TableSize(hashTable[..]);
      if (entries * 10) / hashTable.Length > 6 {
        IncreaseHashtable();
      } else {
        RoomLeft(entries, hashTable.Length);
      }
      ghost var slots := hashTable[..];
      var hash := ComputeHash(sub.fromText);
      var start := hash % hashTable.Length;
      var entry := start;
      ghost var f := FreeSlot(slots);
      ghost var last := PathReaches(|slots|, start, f);
      ghost var d := 0;
      BusyNone(slots, start);
      while hashTable[entry] != null
        invariant d <= last && entry == Path(|slots|, start, d) && Busy(slots, start, d)
        decreases last - d
        modifies {}
      {
        BusyNext(slots, start, d);
        NextSlot(|slots|, start, d);
        entry := (entry + 1) % hashTable.Length;
        d := d + 1;
      }
      InsertKeeps(slots, sub, d);
      hashTable[entry] := sub;
      assert hashTable[..] == slots[entry := sub];
      entries := entries + 1;
    }

    method Retext(sub: Sub, toText: cstring, ghost m: map<cstring, cstring>)
      requires Stands(m) && sub in Subs()
      modifies sub`toText
      ensures Stands(m[sub.fromText := toText])
    {
      hide Table;
      ghost var live := Subs();
      OneEntry(hashTable[..], sub);
      sub.toText := toText;
      assert Subs() == live;
      forall s | s in live
        ensures s.toText == if s == sub then toText else m[s.fromText]
      {
      }
      assert m[sub.fromText := toText].Keys == Keys(live);
    }

    method AddNew(fromText: cstring, toText: cstring, ghost m: map<cstring, cstring>)
      requires Ok() && Stands(m) && fromText !in m
      modifies this, hashTable
      ensures hashTable != null && Stands(m[fromText := toText]) && |Subs()| == |old(Subs())| + 1
      ensures Counters(entries, hashTable.Length)
           == AddCount(Counters(old(entries), old(hashTable.Length)), |old(Subs())|)
    {
      hide Table, AddCount, Keys;
      ghost var live := Subs();
      var sub := new Sub(fromText, toText);
      KeysAdd(live, sub);
      AddToHashtable(sub);
      assert Subs() == live + {sub};
      forall s | s in live
        ensures s.toText == m[s.fromText]
      {
        assert s.toText == old(s.toText);
      }
    }

    /** Replaces a string: the last replacement wins. Over every sequence of calls the table grows by
        more than double exactly when the thirteenth key comes in. */
    method AddStringReplacement(fromText: cstring, toText: cstring, ghost m: map<cstring, cstring>)
      requires Stands(m)
      modifies this, hashTable, Subs()
      ensures hashTable != null && Stands(m[fromText := toText])
      ensures fromText in m ==>
        hashTable == old(hashTable) && entries == old(entries) && Subs() == old(Subs())
      ensures fromText !in m ==> |Subs()| == |old(Subs())| + 1 && Count() == AddCount(old(Count()), |old(Subs())|)
      ensures old(Counted()) ==>
        Counted() && (hashTable.Length > 2 * old(Count()).length <==> fromText !in m && |Subs()| == 13)
    {
      hide Table, AddCount;
      NestsOnce(|Subs()|);
      if hashTable == null {
        InitHashTable();
        assert Stands(m);
      }
      var sub := SubstitutionForString(fromText);
      if sub != null {
        Retext(sub, toText, m);
      } else {
        AddNew(fromText, toText, m);
      }
    }
  }

  lemma OneEntry(slots: seq<Sub?>, sub: Sub)
    requires Table(slots) && sub in Live(slots)
    ensures forall s :: s in Live(slots) && s.fromText == sub.fromText ==> s == sub
  {
    hide Reachable;
  }

  lemma RoomLeft(entries: nat, length: nat)
    requires length >= 16 && entries * 10 / length <= 6
    ensures entries + 1 < length
  {
    var q, r := entries * 10 / length, entries * 10 % length;
    assert entries * 10 == q * length + r;
    assert q * length <= 6 * length;
  }

  lemma TableSize(slots: seq<Sub?>)
    requires Table(slots)
    ensures |slots| >= 16 && |Live(slots)| < |slots|
  {
  }

  lemma EmptyTable(slots: seq<Sub?>)
    requires |slots| >= 16 && forall i :: 0 <= i < |slots| ==> slots[i] == null
    ensures Table(slots) && Live(slots) == {}
  {
  }

  lemma NoneLive(slots: seq<Sub?>)
    ensures Live(slots[..0]) == {}
  {
  }

  lemma GrowNone(c: Counters, live: nat)
    requires c.length > 0
    ensures GrowCount(c, live, 0) == c
  {
  }

  lemma GrowStep(c: Counters, live: nat, n: nat)
    requires c.length > 0 && n < live
    ensures GrowCount(c, live, n + 1) == AddCount(GrowCount(c, live, n), n)
  {
  }

  lemma InLive(slots: seq<Sub?>, i: nat)
    requires i < |slots| && slots[i] != null
    ensures slots[i] in Live(slots)
  {
  }

  lemma BusyNone(slots: seq<Sub?>, start: nat)
    requires |slots| > 0 && start < |slots|
    ensures Busy(slots, start, 0) && Path(|slots|, start, 0) == start
  {
  }

  lemma BusyNext(slots: seq<Sub?>, start: nat, d: nat)
    requires |slots| > 0 && Busy(slots, start, d) && slots[Path(|slots|, start, d)] != null
    ensures Busy(slots, start, d + 1)
  {
    hide Path;
  }

  lemma NextSlot(len: nat, start: nat, d: nat)
    requires start < len && d < len
    ensures (Path(len, start, d) + 1) % len == Path(len, start, d + 1)
  {
    var n := start + d;
    var r := if n < len then n else n - len;
    DivModUnique(n, len, if n < len then 0 else 1, r);
    if r + 1 < len {
      DivModUnique(n + 1, len, if n < len then 0 else 1, r + 1);
      DivModUnique(r + 1, len, 0, r + 1);
    } else {
      DivModUnique(n + 1, len, if n < len then 1 else 2, 0);
      DivModUnique(r + 1, len, 1, 0);
    }
  }

  /** The entries met so far, while walking a table once. */
  lemma NextLive(slots: seq<Sub?>, i: nat)
    requires Table(slots) && i < |slots|
    ensures slots[i] == null ==> Live(slots[..i + 1]) == Live(slots[..i])
    ensures slots[i] != null ==>
      && Live(slots[..i + 1]) == Live(slots[..i]) + {slots[i]}
      && (forall s :: s in Live(slots[..i]) ==> s.fromText != slots[i].fromText)
      && |Live(slots[..i])| < |Live(slots)|
      && |Live(slots[..i + 1])| == |Live(slots[..i])| + 1
  {
    hide Reachable;
    assert slots[..i + 1] == slots[..i] + [slots[i]];
    if slots[i] != null {
      OtherKeys(slots, i);
      Smaller(Live(slots[..i]), Live(slots), slots[i]);
    }
  }

  lemma OtherKeys(slots: seq<Sub?>, i: nat)
    requires Table(slots) && i < |slots| && slots[i] != null
    ensures forall s :: s in Live(slots[..i]) ==> s.fromText != slots[i].fromText
  {
    hide Reachable;
  }

  lemma Smaller<T>(a: set<T>, b: set<T>, x: T)
    requires a <= b && x in b && x !in a
    ensures |a| < |b|
  {
    assert b == a + (b - a);
    assert x in b - a;
  }
}
