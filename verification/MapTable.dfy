/** The hash table behind Wren's maps: open addressing with linear probing, tombstones,
    growth and shrinking. Keys that are equal have the same hash, and the arithmetic on
    capacities does not wrap. */
module MapTable {
  import opened Options

  const MIN_CAPACITY := 16
  const GROW_FACTOR := 2
  const MAP_LOAD_PERCENT := 75

  // [Empty] is an undefined key with the value false, [Tombstone] one with true.
  datatype Slot<K, V> = Empty | Tombstone | Used(key: K, value: V)

  // ----- The probe sequence -----

  // The slot [d] steps after [home], of [n].
  function Probe(home: nat, d: nat, n: nat): (i: nat)
    requires home < n && d < n
    ensures i < n
  {
    if home + d < n then home + d else home + d - n
  }

  // How many steps after [home] slot [i] is visited.
  function Steps(home: nat, i: nat, n: nat): (d: nat)
    requires home < n && i < n
    ensures d < n && Probe(home, d, n) == i
  {
    if home <= i then i - home else i + n - home
  }

  lemma NextProbe(home: nat, d: nat, n: nat)
    requires home < n && d < n
    ensures (Probe(home, d, n) + 1) % n == if d + 1 < n then Probe(home, d + 1, n) else home
  {
    var i := Probe(home, d, n);
    if i + 1 < n {
      assert (i + 1) % n == i + 1;
    } else {
      assert n % n == 0;
    }
  }

  // ----- What a table holds -----

  function Home<K>(hash: K -> nat, key: K, n: nat): (h: nat)
    requires n > 0
    ensures h < n
  {
    hash(key) % n
  }

  // The first [d] slots of the key's probe sequence are not empty.
  ghost predicate Passable<K, V>(hash: K -> nat, s: seq<Slot<K, V>>, key: K, d: nat)
    requires |s| > 0 && d <= |s|
  {
    forall e {:trigger Probe(Home(hash, key, |s|), e, |s|)} :: 0 <= e < d ==>
          !s[Probe(Home(hash, key, |s|), e, |s|)].Empty?
  }

  // No empty slot lies between a key's home and its entry.
  ghost predicate Probed<K, V>(hash: K -> nat, s: seq<Slot<K, V>>) {
    forall i {:trigger s[i]} :: 0 <= i < |s| && s[i].Used? ==>
          Passable(hash, s, s[i].key, Steps(Home(hash, s[i].key, |s|), i, |s|))
  }

  ghost predicate Unique<K, V>(s: seq<Slot<K, V>>) {
    forall i, j :: 0 <= i < |s| && 0 <= j < |s| && s[i].Used? && s[j].Used? && s[i].key == s[j].key ==> i == j
  }

  ghost predicate Table<K, V>(hash: K -> nat, s: seq<Slot<K, V>>) {
    Probed(hash, s) && Unique(s)
  }

  ghost predicate Holds<K, V>(s: seq<Slot<K, V>>, i: int, key: K) {
    0 <= i < |s| && s[i].Used? && s[i].key == key
  }

  // The map that the table represents.
  ghost function ToMap<K, V>(s: seq<Slot<K, V>>): map<K, V>
    requires Unique(s)
  {
    map i | 0 <= i < |s| && s[i].Used? :: s[i].key := s[i].value
  }

  ghost function UsedSlots<K, V>(s: seq<Slot<K, V>>): set<int> {
    set i | 0 <= i < |s| && s[i].Used?
  }

  // ----- Lemmas -----

  lemma ToMapHas<K, V>(s: seq<Slot<K, V>>, key: K)
    requires Unique(s)
    ensures key in ToMap(s) <==> exists i :: Holds(s, i, key)
    ensures forall i :: Holds(s, i, key) ==> ToMap(s)[key] == s[i].value
  {
    if key in ToMap(s) {
      var i :| 0 <= i < |s| && s[i].Used? && s[i].key == key;
      assert Holds(s, i, key);
    }
    forall i | Holds(s, i, key) ensures key in ToMap(s) && ToMap(s)[key] == s[i].value {
      assert s[i].Used?;
    }
  }

  // The probe sequence of a key that is present finds it before an empty slot.
  lemma NotBeyond<K, V>(hash: K -> nat, s: seq<Slot<K, V>>, key: K, i: nat, d: nat)
    requires Probed(hash, s) && Holds(s, i, key) && d < |s| && s[Probe(Home(hash, key, |s|), d, |s|)].Empty?
    ensures Steps(Home(hash, key, |s|), i, |s|) < d
  {
    var e := Steps(Home(hash, key, |s|), i, |s|);
    assert Passable(hash, s, s[i].key, e);
    assert Probe(Home(hash, key, |s|), e, |s|) == i;
  }

  ghost function Below(n: nat): set<int> {
    if n == 0 then {} else Below(n - 1) + {n - 1}
  }

  lemma {:induction false} BelowAll(n: nat)
    ensures |Below(n)| == n && forall i :: i in Below(n) <==> 0 <= i < n
  {
    if n > 0 { BelowAll(n - 1); }
  }

  // Fewer used slots than slots leave one free.
  lemma FreeSlot<K, V>(s: seq<Slot<K, V>>)
    requires |UsedSlots(s)| < |s|
    ensures exists i :: 0 <= i < |s| && !s[i].Used?
  {
    BelowAll(|s|);
    var free := Below(|s|) - UsedSlots(s);
    assert Below(|s|) == UsedSlots(s) + free;
    var i :| i in free;
  }

  // A new key goes to a slot that is not used and that its probe sequence reaches.
  lemma Inserted<K, V>(hash: K -> nat, s: seq<Slot<K, V>>, i: nat, key: K, value: V)
    requires Table(hash, s) && i < |s| && !s[i].Used? && Passable(hash, s, key, Steps(Home(hash, key, |s|), i, |s|))
    requires forall j :: !Holds(s, j, key)
    ensures var t := s[i := Used(key, value)];
            Table(hash, t) && ToMap(t) == ToMap(s)[key := value] && |UsedSlots(t)| == |UsedSlots(s)| + 1
    ensures key !in ToMap(s)
  {
    hide Probe, Steps, Home;
    var t := s[i := Used(key, value)];
    assert UsedSlots(t) == UsedSlots(s) + {i};
    forall j, k | 0 <= j < |t| && 0 <= k < |t| && t[j].Used? && t[k].Used? && t[j].key == t[k].key ensures j == k {
      assert !Holds(s, j, key) && !Holds(s, k, key);
    }
    ToMapHas(s, key);
    MapSet(s, i, key, value);
  }

  lemma MapSet<K, V>(s: seq<Slot<K, V>>, i: nat, key: K, value: V)
    requires i < |s| && Unique(s) && Unique(s[i := Used(key, value)]) && (!s[i].Used? || s[i].key == key)
    ensures ToMap(s[i := Used(key, value)]) == ToMap(s)[key := value]
  {
    var t := s[i := Used(key, value)];
    assert t[i].Used?;
    forall k ensures k in ToMap(t) <==> k in ToMap(s)[key := value] {
      ToMapHas(s, k);
      ToMapHas(t, k);
      if j :| Holds(s, j, k) { assert Holds(t, j, k) || j == i; }
      if j :| Holds(t, j, k) { assert Holds(s, j, k) || j == i; }
      if k == key { assert Holds(t, i, k); }
    }
    forall k | k in ToMap(t) ensures ToMap(t)[k] == ToMap(s)[key := value][k] {
      ToMapHas(s, k);
      ToMapHas(t, k);
      var j :| Holds(t, j, k);
      assert j == i || Holds(s, j, k);
    }
  }

  // A present key gets a new value in place.
  lemma Replaced<K, V>(hash: K -> nat, s: seq<Slot<K, V>>, i: nat, key: K, value: V)
    requires Table(hash, s) && Holds(s, i, key)
    ensures var t := s[i := Used(key, value)];
            Table(hash, t) && ToMap(t) == ToMap(s)[key := value] && UsedSlots(t) == UsedSlots(s)
    ensures key in ToMap(s)
  {
    hide Probe, Steps, Home;
    ToMapHas(s, key);
    MapSet(s, i, key, value);
  }

  // A tombstone removes exactly its key.
  lemma Removed<K, V>(hash: K -> nat, s: seq<Slot<K, V>>, i: nat, key: K)
    requires Table(hash, s) && Holds(s, i, key)
    ensures var t := s[i := Tombstone];
            Table(hash, t) && ToMap(t) == ToMap(s) - {key} && |UsedSlots(t)| + 1 == |UsedSlots(s)|
  {
    hide Probe, Steps, Home;
    var t := s[i := Tombstone];
    assert UsedSlots(s) == UsedSlots(t) + {i};
    forall k ensures k in ToMap(t) <==> k in ToMap(s) - {key} {
      ToMapHas(s, k);
      ToMapHas(t, k);
      if j :| Holds(s, j, k) { assert Holds(t, j, k) || j == i; }
      if j :| Holds(t, j, k) { assert Holds(s, j, k); }
    }
    forall k | k in ToMap(t) ensures ToMap(t)[k] == (ToMap(s) - {key})[k] {
      ToMapHas(s, k);
      ToMapHas(t, k);
      var j :| Holds(t, j, k);
      assert Holds(s, j, k);
    }
  }

  lemma UsedNext<K, V>(s: seq<Slot<K, V>>, n: nat)
    requires n < |s|
    ensures |UsedSlots(s[..n + 1])| == |UsedSlots(s[..n])| + if s[n].Used? then 1 else 0
  {
    assert UsedSlots(s[..n + 1]) == UsedSlots(s[..n]) + if s[n].Used? then {n} else {};
  }

  lemma NoSlots<K, V>(s: seq<Slot<K, V>>)
    requires forall i :: 0 <= i < |s| ==> s[i].Empty?
    ensures Unique(s) && ToMap(s) == map[] && UsedSlots(s) == {}
  {
  }

  // The number of used slots is the size of the map.
  lemma {:induction false} MapSize<K, V>(s: seq<Slot<K, V>>, n: nat)
    requires Unique(s) && n <= |s|
    ensures Unique(s[..n]) && |ToMap(s[..n])| == |UsedSlots(s[..n])|
  {
    hide ToMap, UsedSlots;
    if n == 0 {
      NoSlots(s[..n]);
    } else {
      Prefix(s, n - 1);
      UsedNext(s, n - 1);
      MapSize(s, n - 1);
    }
  }

  // One more slot of the table.
  lemma Prefix<K, V>(s: seq<Slot<K, V>>, n: nat)
    requires n < |s| && Unique(s)
    ensures Unique(s[..n]) && Unique(s[..n + 1])
    ensures s[n].Used? ==> s[n].key !in ToMap(s[..n]) && ToMap(s[..n + 1]) == ToMap(s[..n])[s[n].key := s[n].value]
    ensures !s[n].Used? ==> ToMap(s[..n + 1]) == ToMap(s[..n])
  {
    if s[n].Used? {
      PrefixUsed(s, n);
    } else {
      PrefixFree(s, n);
    }
  }

  lemma PrefixUsed<K, V>(s: seq<Slot<K, V>>, n: nat)
    requires n < |s| && Unique(s) && s[n].Used?
    ensures Unique(s[..n]) && Unique(s[..n + 1])
    ensures s[n].key !in ToMap(s[..n]) && ToMap(s[..n + 1]) == ToMap(s[..n])[s[n].key := s[n].value]
  {
    var p, q := s[..n], s[..n + 1];
    assert q == (p + [Empty])[n := Used(s[n].key, s[n].value)];
    ToMapHas(p, s[n].key);
    Padded(p, Empty);
    MapSet(p + [Empty], n, s[n].key, s[n].value);
  }

  lemma PrefixFree<K, V>(s: seq<Slot<K, V>>, n: nat)
    requires n < |s| && Unique(s) && !s[n].Used?
    ensures Unique(s[..n]) && Unique(s[..n + 1]) && ToMap(s[..n + 1]) == ToMap(s[..n])
  {
    assert s[..n + 1] == s[..n] + [s[n]];
    Padded(s[..n], s[n]);
  }

  lemma Padded<K, V>(p: seq<Slot<K, V>>, x: Slot<K, V>)
    requires Unique(p) && !x.Used?
    ensures Unique(p + [x]) && ToMap(p + [x]) == ToMap(p)
  {
    var a := p + [x];
    assert forall i :: 0 <= i < |a| && a[i].Used? ==> i < |p| && a[i] == p[i];
    assert forall i :: 0 <= i < |p| && p[i].Used? ==> a[i] == p[i];
    assert ToMap(a).Keys == ToMap(p).Keys;
  }

  // ----- The table itself -----

  // Searches for [key]. If it is missing, [slot] is where it should be inserted: the
  // first slot of its probe sequence that is not used, or -1 if all are.
  method FindEntry<K(==), V>(hash: K -> nat, entries: array<Slot<K, V>>, key: K) returns (found: bool, slot: int)
    requires Probed(hash, entries[..])
    ensures found <==> exists i :: Holds(entries[..], i, key)
    ensures found ==> Holds(entries[..], slot, key)
    ensures !found ==> -1 <= slot < entries.Length
    ensures !found && slot == -1 ==> forall i :: 0 <= i < entries.Length ==> entries[i].Used?
    ensures !found && slot != -1 ==> !entries[slot].Used?
    ensures !found && slot != -1 ==>
      var home := Home(hash, key, entries.Length); AllUsed(entries[..], home, Steps(home, slot, entries.Length))
  {
    if entries.Length == 0 { return false, -1; }
    ghost var s, n := entries[..], entries.Length;
    var startIndex := hash(key) % entries.Length;
    var index := startIndex;
    var tombstone := -1;
    ghost var d := 0;
    while true
      invariant d < n && index == Probe(startIndex, d, n) && -1 <= tombstone < n && s == entries[..]
      invariant Missed(s, key, startIndex, d)
      invariant tombstone == -1 ==> AllUsed(s, startIndex, d)
      invariant tombstone != -1 ==> s[tombstone].Tombstone? && AllUsed(s, startIndex, Steps(startIndex, tombstone, n))
      decreases n - d
    {
      var entry := entries[index];
      if entry.Empty? {
        MissedAtEmpty(hash, s, key, d);
        return false, if tombstone != -1 then tombstone else index;
      } else if entry.Tombstone? {
        if tombstone == -1 { tombstone := index; }
      } else if entry.key == key {
        assert Holds(s, index, key);
        return true, index;
      }
      NextProbe(startIndex, d, n);
      index := (index + 1) % entries.Length;
      if index == startIndex { break; }
      d := d + 1;
    }
    MissedAll(s, key, startIndex);
    return false, tombstone;
  }

  // The first [d] slots from [start] are not empty and do not hold [key].
  ghost predicate Missed<K, V>(s: seq<Slot<K, V>>, key: K, start: nat, d: nat)
    requires start < |s| && d <= |s|
  {
    forall e {:trigger Probe(start, e, |s|)} :: 0 <= e < d ==>
          !s[Probe(start, e, |s|)].Empty? && !Holds(s, Probe(start, e, |s|), key)
  }

  ghost predicate AllUsed<K, V>(s: seq<Slot<K, V>>, start: nat, d: nat)
    requires start < |s| && d <= |s|
  {
    forall e {:trigger Probe(start, e, |s|)} :: 0 <= e < d ==> s[Probe(start, e, |s|)].Used?
  }

  lemma MissedAtEmpty<K, V>(hash: K -> nat, s: seq<Slot<K, V>>, key: K, d: nat)
    requires Probed(hash, s) && d < |s| && Missed(s, key, Home(hash, key, |s|), d)
             && s[Probe(Home(hash, key, |s|), d, |s|)].Empty?
    ensures forall i :: !Holds(s, i, key)
  {
    var home := Home(hash, key, |s|);
    forall i ensures !Holds(s, i, key) {
      if Holds(s, i, key) {
        assert Probe(home, Steps(home, i, |s|), |s|) == i;
        NotBeyond(hash, s, key, i, d);
      }
    }
  }

  lemma MissedAll<K, V>(s: seq<Slot<K, V>>, key: K, start: nat)
    requires start < |s| && Missed(s, key, start, |s|)
    ensures (forall i :: !Holds(s, i, key)) && (AllUsed(s, start, |s|) ==> forall i :: 0 <= i < |s| ==> s[i].Used?)
  {
    forall i | 0 <= i < |s| ensures !Holds(s, i, key) && (AllUsed(s, start, |s|) ==> s[i].Used?) {
      assert Probe(start, Steps(start, i, |s|), |s|) == i;
    }
  }

  // Inserts an entry, and tells whether the key is new.
  method InsertEntry<K(==), V>(hash: K -> nat, entries: array<Slot<K, V>>, key: K, value: V) returns (added: bool)
    requires Table(hash, entries[..]) && |UsedSlots(entries[..])| < entries.Length
    modifies entries
    ensures Table(hash, entries[..]) && ToMap(entries[..]) == old(ToMap(entries[..]))[key := value]
    ensures added <==> key !in old(ToMap(entries[..]))
    ensures |UsedSlots(entries[..])| == old(|UsedSlots(entries[..])|) + if added then 1 else 0
    ensures NoTombstones(old(entries[..])) ==> NoTombstones(entries[..])
  {
    hide ToMap, UsedSlots, Probed, Unique, NoTombstones;
    ghost var s := entries[..];
    FreeSlot(s);
    var found, entry := FindEntry(hash, entries, key);
    StaysClear(s, entry, key, value);
    if found {
      Replaced(hash, s, entry, key, value);
      entries[entry] := Used(entries[entry].key, value);
      added := false;
    } else {
      UsedPassable(hash, s, key, Steps(Home(hash, key, |s|), entry, |s|));
      Inserted(hash, s, entry, key, value);
      entries[entry] := Used(key, value);
      added := true;
    }
    assert entries[..] == s[entry := Used(key, value)];
  }

  ghost predicate NoTombstones<K, V>(s: seq<Slot<K, V>>) {
    forall i :: 0 <= i < |s| ==> !s[i].Tombstone?
  }

  lemma StaysClear<K, V>(s: seq<Slot<K, V>>, i: int, key: K, value: V)
    requires 0 <= i < |s|
    ensures NoTombstones(s) ==> NoTombstones(s[i := Used(key, value)])
  {
  }

  lemma UsedPassable<K, V>(hash: K -> nat, s: seq<Slot<K, V>>, key: K, d: nat)
    requires |s| > 0 && d <= |s| && AllUsed(s, Home(hash, key, |s|), d)
    ensures Passable(hash, s, key, d)
  {
  }

  lemma NewTable<K, V>(hash: K -> nat, s: seq<Slot<K, V>>)
    requires forall i :: 0 <= i < |s| ==> s[i].Empty?
    ensures Table(hash, s) && ToMap(s) == map[] && UsedSlots(s) == {} && NoTombstones(s)
  {
    NoSlots(s);
  }

  class ObjMap<K(==), V> {
    const hash: K -> nat
    var count: nat
    // Its length is the capacity.
    var entries: array<Slot<K, V>>

    // The load factor leaves a free slot, and a large table is not too empty.
    ghost predicate Valid()
      reads this, entries
    {
      && Table(hash, entries[..]) && count == |UsedSlots(entries[..])|
      && (entries.Length == 0 || entries.Length >= MIN_CAPACITY) && count <= entries.Length * MAP_LOAD_PERCENT / 100
      && (entries.Length > MIN_CAPACITY ==> count >= entries.Length / GROW_FACTOR * MAP_LOAD_PERCENT / 100)
    }

    ghost function Contents(): map<K, V>
      requires Valid()
      reads this, entries
    {
      ToMap(entries[..])
    }

    constructor (hash: K -> nat)
      ensures Valid() && Contents() == map[] && fresh(entries) && this.hash == hash
    {
      this.hash := hash;
      count := 0;
      entries := new Slot<K, V>[0];
      new;
      NewTable(hash, entries[..]);
    }

    lemma SizeIsCount()
      requires Valid()
      ensures count == |Contents()|
    {
      MapSize(entries[..], entries.Length);
      assert entries[..][..entries.Length] == entries[..];
    }

    // Moves the entries to a new array.
    method Resize(capacity: nat)
      requires Table(hash, entries[..]) && |UsedSlots(entries[..])| < capacity
      modifies `entries
      ensures fresh(entries) && entries.Length == capacity && Table(hash, entries[..]) && NoTombstones(entries[..])
      ensures ToMap(entries[..]) == old(ToMap(entries[..])) && |UsedSlots(entries[..])| == old(|UsedSlots(entries[..])|)
    {
      hide ToMap, UsedSlots, Probed, Unique, NoTombstones;
      var moved := new Slot<K, V>[capacity](_ => Empty);
      NewTable(hash, moved[..]);
      ghost var s := entries[..];
      NoSlots(s[..0]);
      for i := 0 to entries.Length
        invariant entries == old(entries) && entries[..] == s && Table(hash, moved[..]) && NoTombstones(moved[..])
        invariant Unique(s[..i]) && ToMap(moved[..]) == ToMap(s[..i]) && |UsedSlots(moved[..])| == |UsedSlots(s[..i])|
      {
        Prefix(s, i);
        UsedNext(s, i);
        Fewer(s, i);
        if entries[i].Used? {
          var _ := InsertEntry(hash, moved, entries[i].key, entries[i].value);
        }
      }
      assert s[..|s|] == s;
      entries := moved;
    }

    method Get(key: K) returns (r: Option<V>)
      requires Valid()
      ensures r == if key in Contents() then Some(Contents()[key]) else None
    {
      hide ToMap, UsedSlots, Probed, Unique;
      ToMapHas(entries[..], key);
      var found, entry := FindEntry(hash, entries, key);
      return if found then Some(entries[entry].value) else None;
    }

    method Set(key: K, value: V)
      requires Valid()
      modifies this, entries
      ensures Valid() && (entries == old(entries) || fresh(entries)) && Contents() == old(Contents())[key := value]
      ensures entries.Length == var n := old(entries.Length);
              if old(count) + 1 <= n * 75 / 100 then n else if n < 8 then 16 else 2 * n
    {
      hide ToMap, UsedSlots, Probed, Unique;
      if count + 1 > entries.Length * MAP_LOAD_PERCENT / 100 {
        var capacity := entries.Length * GROW_FACTOR;
        if capacity < MIN_CAPACITY { capacity := MIN_CAPACITY; }
        Resize(capacity);
      }
      var added := InsertEntry(hash, entries, key, value);
      if added { count := count + 1; }
    }

    method Clear()
      requires Valid()
      modifies this
      ensures Valid() && fresh(entries) && entries.Length == 0 && Contents() == map[]
    {
      entries := new Slot<K, V>[0];
      count := 0;
      NewTable(hash, entries[..]);
    }

    method RemoveKey(key: K) returns (r: Option<V>)
      requires Valid()
      modifies this, entries
      ensures Valid() && (entries == old(entries) || fresh(entries)) && Contents() == old(Contents()) - {key}
      ensures r == if key in old(Contents()) then Some(old(Contents())[key]) else None
      ensures entries.Length == var n := old(entries.Length);
              if r.None? then n
              else if old(count) == 1 then 0
              else if n <= 16 || old(count) - 1 >= n / 2 * 75 / 100 then n
              else if n < 32 then 16 else n / 2
    {
      hide ToMap, UsedSlots, Probed, Unique;
      ghost var s := entries[..];
      ToMapHas(s, key);
      var found, entry := FindEntry(hash, entries, key);
      if !found { return None; }
      r := Some(entries[entry].value);
      Removed(hash, s, entry, key);
      entries[entry] := Tombstone;
      assert entries[..] == s[entry := Tombstone];
      count := count - 1;
      if count == 0 {
        EmptyMap(entries[..]);
        Clear();
      } else if entries.Length > MIN_CAPACITY && count < entries.Length / GROW_FACTOR * MAP_LOAD_PERCENT / 100 {
        var capacity := entries.Length / GROW_FACTOR;
        if capacity < MIN_CAPACITY { capacity := MIN_CAPACITY; }
        Resize(capacity);
      }
    }

    // The first used slot after the iterator, or from the start.
    method Iterate(at: Option<int>) returns (r: Option<nat>)
      requires Valid()
      ensures r.Some? ==> at.None? || 0 <= at.value < r.value
      ensures r.Some? ==>
                r.value < entries.Length && entries[r.value].Used? && NoneUsed(entries[..], After(at), r.value)
      ensures r.None? && (at.None? || at.value >= 0) ==> NoneUsed(entries[..], After(at), entries.Length)
    {
      hide Probed, Unique;
      if count == 0 {
        assert forall i :: 0 <= i < entries.Length && entries[i].Used? ==> i in UsedSlots(entries[..]);
        return None;
      }
      var index := 0;
      if at.Some? {
        if at.value < 0 { return None; }
        index := at.value;
        if index >= entries.Length { return None; }
        index := index + 1;
      }
      while index < entries.Length
        invariant After(at) <= index <= entries.Length && NoneUsed(entries[..], After(at), index)
      {
        if entries[index].Used? { return Some(index); }
        index := index + 1;
      }
      return None;
    }

    // What a loop over the map sees.
    method Traverse() returns (pairs: seq<(K, V)>)
      requires Valid()
      ensures |pairs| == count
      ensures forall i, j :: 0 <= i < j < |pairs| ==> pairs[i].0 != pairs[j].0
      ensures forall k :: k in Contents() <==> exists v :: (k, v) in pairs
      ensures forall p :: p in pairs ==> p.0 in Contents() && Contents()[p.0] == p.1
    {
      hide ToMap, UsedSlots, Probed, Unique, NoneUsed, Pairs, Listed;
      ghost var s := entries[..];
      pairs := [];
      var at := Iterate(None);
      assert s[..0] == [];
      SkipPairs(s, 0, if at.Some? then at.value else |s|);
      NoPairs<K, V>();
      while at.Some?
        invariant at.Some? ==> at.value < |s| && s[at.value].Used? && pairs == Pairs(s[..at.value])
        invariant at.None? ==> pairs == Pairs(s[..|s|])
        decreases if at.Some? then |s| - at.value else -1
      {
        var i := at.value;
        pairs := pairs + [(entries[i].key, entries[i].value)];
        NextPair(s, i);
        at := Iterate(Some(i));
        SkipPairs(s, i + 1, if at.Some? then at.value else |s|);
      }
      PairsListed(s, |s|);
      assert s[..|s|] == s;
      ListedAll(s, pairs);
    }

    // One operation, and any run of operations.
    method Execute(op: Op<K, V>) returns (out: Out<V>)
      requires Valid()
      modifies this, entries
      ensures Valid() && (entries == old(entries) || fresh(entries)) && Contents() == Applied(old(Contents()), op)
              && out == Result(old(Contents()), op)
    {
      SizeIsCount();
      match op
      case Get(key) =>
        var r := Get(key);
        out := Found(r);
      case Set(key, value) =>
        Set(key, value);
        out := Done;
      case Remove(key) =>
        var r := RemoveKey(key);
        out := Found(r);
      case Clear =>
        Clear();
        out := Done;
      case Count =>
        out := Size(count);
    }

    method Run(ops: seq<Op<K, V>>) returns (outs: seq<Out<V>>)
      requires Valid()
      modifies this, entries
      ensures Valid() && (entries == old(entries) || fresh(entries))
      ensures Contents() == AfterAll(old(Contents()), ops) && outs == Results(old(Contents()), ops)
    {
      hide Applied, Result;
      ghost var m := Contents();
      outs := [];
      for i := 0 to |ops|
        invariant Valid() && (entries == old(entries) || fresh(entries))
        invariant Contents() == AfterAll(m, ops[..i]) && outs == Results(m, ops[..i])
      {
        var out := Execute(ops[i]);
        outs := outs + [out];
        assert ops[..i + 1][..i] == ops[..i];
      }
      assert ops[..|ops|] == ops;
    }
  }

  lemma Fewer<K, V>(s: seq<Slot<K, V>>, i: nat)
    requires i <= |s|
    ensures |UsedSlots(s[..i])| <= |UsedSlots(s)|
  {
    assert UsedSlots(s) == UsedSlots(s[..i]) + (UsedSlots(s) - UsedSlots(s[..i]));
  }

  lemma EmptyMap<K, V>(s: seq<Slot<K, V>>)
    requires Unique(s) && |UsedSlots(s)| == 0
    ensures ToMap(s) == map[]
  {
    assert forall i :: 0 <= i < |s| && s[i].Used? ==> i in UsedSlots(s);
  }

  // ----- Iteration -----

  function After(at: Option<int>): int {
    if at.Some? then at.value + 1 else 0
  }

  ghost predicate NoneUsed<K, V>(s: seq<Slot<K, V>>, a: int, b: int) {
    forall i :: 0 <= i < |s| && a <= i < b ==> !s[i].Used?
  }

  // The entries, in the order of the slots.
  ghost function Pairs<K, V>(s: seq<Slot<K, V>>): seq<(K, V)> {
    if s == [] then []
    else Pairs(s[..|s| - 1]) + if s[|s| - 1].Used? then [(s[|s| - 1].key, s[|s| - 1].value)] else []
  }

  lemma NoPairs<K, V>()
    ensures Pairs<K, V>([]) == []
  {
  }

  lemma NextPair<K, V>(s: seq<Slot<K, V>>, i: nat)
    requires i < |s|
    ensures Pairs(s[..i + 1]) == Pairs(s[..i]) + if s[i].Used? then [(s[i].key, s[i].value)] else []
  {
    assert s[..i + 1][..i] == s[..i];
  }

  lemma {:induction false} SkipPairs<K, V>(s: seq<Slot<K, V>>, a: nat, b: nat)
    requires NoneUsed(s, a, b) && a <= |s| && b <= |s|
    ensures a <= b ==> Pairs(s[..a]) == Pairs(s[..b])
    decreases b
  {
    hide Pairs;
    if a < b {
      SkipPairs(s, a, b - 1);
      NextPair(s, b - 1);
    }
  }

  ghost predicate Listed<K, V>(s: seq<Slot<K, V>>, pairs: seq<(K, V)>)
    requires Unique(s)
  {
    && |pairs| == |UsedSlots(s)|
    && (forall i, j :: 0 <= i < j < |pairs| ==> pairs[i].0 != pairs[j].0)
    && (forall i :: 0 <= i < |pairs| ==> pairs[i].0 in ToMap(s) && ToMap(s)[pairs[i].0] == pairs[i].1)
    && (forall k :: k in ToMap(s) ==> (k, ToMap(s)[k]) in pairs)
  }

  // Each key is listed once, with its value.
  lemma {:induction false} PairsListed<K, V>(s: seq<Slot<K, V>>, n: nat)
    requires Unique(s) && n <= |s|
    ensures Unique(s[..n]) && Listed(s[..n], Pairs(s[..n]))
  {
    hide ToMap, UsedSlots, Pairs;
    if n == 0 {
      NoSlots(s[..n]);
      NoPairs<K, V>();
      assert s[..n] == [];
    } else {
      PairsListed(s, n - 1);
      Prefix(s, n - 1);
      UsedNext(s, n - 1);
      NextPair(s, n - 1);
    }
  }

  lemma ListedAll<K, V>(s: seq<Slot<K, V>>, pairs: seq<(K, V)>)
    requires Unique(s) && Listed(s, pairs)
    ensures |pairs| == |UsedSlots(s)|
    ensures forall i, j :: 0 <= i < j < |pairs| ==> pairs[i].0 != pairs[j].0
    ensures forall k :: k in ToMap(s) <==> exists v :: (k, v) in pairs
    ensures forall p :: p in pairs ==> p.0 in ToMap(s) && ToMap(s)[p.0] == p.1
  {
    hide ToMap, UsedSlots;
  }

  // ----- Runs of operations on a plain map -----

  datatype Op<K, V> = Get(key: K) | Set(key: K, value: V) | Remove(key: K) | Clear | Count

  datatype Out<V> = Done | Found(result: Option<V>) | Size(size: nat)

  ghost function Applied<K, V>(m: map<K, V>, op: Op<K, V>): map<K, V> {
    match op
    case Set(key, value) => m[key := value]
    case Remove(key) => m - {key}
    case Clear => map[]
    case _ => m
  }

  ghost function Result<K, V>(m: map<K, V>, op: Op<K, V>): Out<V> {
    match op
    case Set(_, _) => Done
    case Clear => Done
    case Count => Size(|m|)
    case Get(key) => Found(if key in m then Some(m[key]) else None)
    case Remove(key) => Found(if key in m then Some(m[key]) else None)
  }

  ghost function AfterAll<K, V>(m: map<K, V>, ops: seq<Op<K, V>>): map<K, V> {
    if ops == [] then m else Applied(AfterAll(m, ops[..|ops| - 1]), ops[|ops| - 1])
  }

  ghost function Results<K, V>(m: map<K, V>, ops: seq<Op<K, V>>): seq<Out<V>> {
    if ops == [] then []
    else Results(m, ops[..|ops| - 1]) + [Result(AfterAll(m, ops[..|ops| - 1]), ops[|ops| - 1])]
  }

  // ----- What a run answers, by its history -----

  predicate Changes<K(==), V>(op: Op<K, V>, k: K) {
    op.Clear? || (op.Set? && op.key == k) || (op.Remove? && op.key == k)
  }

  // After [ops], key [k] has the value [v]: it was set to that, or had it at first, and
  // nothing changed it since.
  ghost predicate Holding<K, V>(m: map<K, V>, ops: seq<Op<K, V>>, k: K, v: V) {
    || (exists j :: 0 <= j < |ops| && ops[j] == Set(k, v) && Unchanged(ops, j + 1, k))
    || (k in m && m[k] == v && Unchanged(ops, 0, k))
  }

  ghost predicate Unchanged<K, V>(ops: seq<Op<K, V>>, from: nat, k: K) {
    forall i :: from <= i < |ops| ==> !Changes(ops[i], k)
  }

  lemma {:induction false} HoldsLast<K, V>(m: map<K, V>, ops: seq<Op<K, V>>, k: K, v: V)
    ensures k in AfterAll(m, ops) && AfterAll(m, ops)[k] == v <==> Holding(m, ops, k, v)
    decreases |ops|
  {
    if ops != [] {
      var before, op := ops[..|ops| - 1], ops[|ops| - 1];
      HoldsLast(m, before, k, v);
      HoldingNext(m, before, op, k, v);
      assert ops == before + [op];
    }
  }

  lemma HoldingNext<K, V>(m: map<K, V>, before: seq<Op<K, V>>, op: Op<K, V>, k: K, v: V)
    ensures Holding(m, before + [op], k, v) <==> op == Set(k, v) || (!Changes(op, k) && Holding(m, before, k, v))
  {
    var ops, n := before + [op], |before|;
    UnchangedNext(before, op, 0, k);
    if Holding(m, ops, k, v) {
      if j :| 0 <= j < |ops| && ops[j] == Set(k, v) && Unchanged(ops, j + 1, k) {
        if j < n {
          UnchangedNext(before, op, j + 1, k);
          assert before[j] == Set(k, v);
        }
      }
    }
    if op == Set(k, v) { assert ops[n] == Set(k, v) && Unchanged(ops, n + 1, k); }
    if !Changes(op, k) && Holding(m, before, k, v) {
      if j :| 0 <= j < n && before[j] == Set(k, v) && Unchanged(before, j + 1, k) {
        UnchangedNext(before, op, j + 1, k);
        assert ops[j] == Set(k, v);
      }
    }
  }

  lemma UnchangedNext<K, V>(before: seq<Op<K, V>>, op: Op<K, V>, from: nat, k: K)
    requires from <= |before|
    ensures Unchanged(before + [op], from, k) <==> Unchanged(before, from, k) && !Changes(op, k)
  {
    var ops := before + [op];
    if Unchanged(ops, from, k) {
      assert !Changes(ops[|before|], k);
      forall i | from <= i < |before| ensures !Changes(before[i], k) {
        assert !Changes(ops[i], k);
      }
    }
  }

  // A key is found, by get or by remove, with the value that it holds then, and not when
  // it holds none.
  lemma {:induction false} FoundLast<K, V>(m: map<K, V>, ops: seq<Op<K, V>>, i: nat, k: K, v: V)
    requires i < |ops| && (ops[i] == Get(k) || ops[i] == Remove(k))
    ensures |Results(m, ops)| == |ops| && Results(m, ops)[i].Found?
    ensures Results(m, ops)[i] == Found(Some(v)) <==> Holding(m, ops[..i], k, v)
    decreases |ops|
  {
    hide Holding;
    ResultsLength(m, ops);
    var before := ops[..|ops| - 1];
    ResultsLength(m, before);
    if i < |before| {
      FoundLast(m, before, i, k, v);
      assert before[..i] == ops[..i];
    } else {
      HoldsLast(m, before, k, v);
    }
  }

  lemma {:induction false} ResultsLength<K, V>(m: map<K, V>, ops: seq<Op<K, V>>)
    ensures |Results(m, ops)| == |ops|
    decreases |ops|
  {
    if ops != [] { ResultsLength(m, ops[..|ops| - 1]); }
  }
}
