/**
 Which configurations share a hash, if the hash function and Python's text of a list tell their arguments apart: those
 that are the same but for order, for the type of scalars that print alike, and for empty lists and dictionaries.
 */
module HashCollisions {
  import opened ConfigValues

  /** Different texts have different hashes, different lists different texts, and no hash looks like a list. */
  ghost predicate TellsApart(h: Hashing) {
    && (forall a: string, b: string :: h.sha(a) == h.sha(b) ==> a == b)
    && (forall a: seq<string>, b: seq<string> :: h.repr(a) == h.repr(b) ==> a == b)
    && (forall a: string, b: seq<string> :: h.sha(a) != h.repr(b))
  }

  /** A text that is neither a hash nor the text of a list. */
  ghost predicate IsOrdinary(h: Hashing, t: string) {
    (forall a: string :: h.sha(a) != t) && (forall b: seq<string> :: h.repr(b) != t)
  }

  ghost predicate Ordinary(h: Hashing, v: Value)
    decreases v
  {
    match v
    case Text(s) => IsOrdinary(h, s)
    case Other(t) => IsOrdinary(h, t)
    case List(items) => forall i :: 0 <= i < |items| ==> Ordinary(h, items[i])
    case Dict(entries) =>
      forall i :: 0 <= i < |entries| ==> IsOrdinary(h, entries[i].key) && Ordinary(h, entries[i].value)
  }

  // ---- Types of scalars, and empty dictionaries ----------------------------------------------------------

  /** The value with scalars as their texts and empty dictionaries as empty lists. */
  function Plain(v: Value): Value
    decreases v
  {
    match v
    case Text(_) => v
    case Other(t) => Text(t)
    case List(items) => List(PlainAll(items))
    case Dict(entries) => if entries == [] then List([]) else Dict(PlainEntries(entries))
  }

  function PlainAll(items: seq<Value>): (r: seq<Value>)
    ensures |r| == |items| && forall i :: 0 <= i < |items| ==> r[i] == Plain(items[i])
    decreases items
  {
    if items == [] then [] else [Plain(items[0])] + PlainAll(items[1..])
  }

  function PlainEntries(entries: seq<Entry>): (r: seq<Entry>)
    ensures |r| == |entries|
    ensures forall i :: 0 <= i < |entries| ==> r[i] == Entry(entries[i].key, Plain(entries[i].value))
    decreases entries
  {
    if entries == [] then [] else [Entry(entries[0].key, Plain(entries[0].value))] + PlainEntries(entries[1..])
  }

  predicate IsPlain(v: Value)
    decreases v
  {
    match v
    case Text(_) => true
    case Other(_) => false
    case List(items) => forall i :: 0 <= i < |items| ==> IsPlain(items[i])
    case Dict(entries) => entries != [] && forall i :: 0 <= i < |entries| ==> IsPlain(entries[i].value)
  }

  lemma {:induction false} PlainIsPlain(h: Hashing, v: Value)
    ensures IsPlain(Plain(v)) && DHash(h, Plain(v)) == DHash(h, v) && (Ordinary(h, v) ==> Ordinary(h, Plain(v)))
    decreases v
  {
    match v
    case Text(_) =>
    case Other(_) =>
    case List(items) =>
      forall i | 0 <= i < |items|
        ensures IsPlain(PlainAll(items)[i]) && DHash(h, PlainAll(items)[i]) == DHash(h, items[i])
        ensures Ordinary(h, items[i]) ==> Ordinary(h, PlainAll(items)[i])
      {
        PlainIsPlain(h, items[i]);
      }
      assert DHashes(h, PlainAll(items)) == DHashes(h, items);
    case Dict(entries) =>
      var plain := PlainEntries(entries);
      forall i | 0 <= i < |entries|
        ensures IsPlain(plain[i].value) && DHash(h, plain[i].value) == DHash(h, entries[i].value)
        ensures Ordinary(h, entries[i].value) ==> Ordinary(h, plain[i].value)
      {
        PlainIsPlain(h, entries[i].value);
      }
      assert EntryHashes(h, plain) == EntryHashes(h, entries);
      if entries == [] {
        assert DHashes(h, []) == EntryHashes(h, []);
      }
  }

  // ---- Equal hashes ---------------------------------------------------------------------------------------

  /** Sorting keeps every string. */
  lemma {:induction false} SortedKeeps(s: seq<string>)
    ensures multiset(Sorted(s)) == multiset(s)
    decreases |s|
  {
    if s != [] {
      SortedKeeps(s[1..]);
      InsertKeeps(s[0], Sorted(s[1..]));
      assert s == [s[0]] + s[1..];
    }
  }

  lemma {:induction false} InsertKeeps(x: string, s: seq<string>)
    ensures multiset(Insert(x, s)) == multiset{x} + multiset(s)
    decreases |s|
  {
    if s != [] && !AtMost(x, s[0]) {
      InsertKeeps(x, s[1..]);
      assert s == [s[0]] + s[1..];
    }
  }

  lemma SameListHash(h: Hashing, a: seq<string>, b: seq<string>)
    requires TellsApart(h) && ListHash(h, a) == ListHash(h, b)
    ensures multiset(a) == multiset(b)
  {
    hide Sorted;
    assert h.repr(Sorted(a)) == h.repr(Sorted(b));
    SortedKeeps(a);
    SortedKeeps(b);
  }

  /** The hash of a list is no hash of an ordinary text. */
  lemma ListHashIsApart(h: Hashing, a: seq<string>, t: string)
    requires TellsApart(h) && IsOrdinary(h, t)
    ensures ListHash(h, a) != h.sha(t)
  {
    hide Sorted;
    assert h.repr(Sorted(a)) != t;
  }

  /** An element of the one has an element of the same hash in the other. */
  lemma HashOccurs(a: seq<string>, b: seq<string>, j: nat) returns (i: nat)
    requires multiset(a) == multiset(b) && j < |b|
    ensures i < |a| && a[i] == b[j]
  {
    assert b[j] in multiset(a);
    i :| 0 <= i < |a| && a[i] == b[j];
  }

  /** A hash of a hash is the hash of no ordinary value. */
  lemma NoDoubleHash(h: Hashing, v: Value, t: string)
    requires TellsApart(h) && Ordinary(h, v) && !v.Other?
    ensures DHash(h, v) != h.sha(h.sha(t))
  {
    hide Sorted, DHashes, EntryHashes;
    match v
    case Text(s) => assert s != h.sha(t);
    case List(items) => assert h.sha(t) != h.repr(Sorted(DHashes(h, items)));
    case Dict(entries) => assert h.sha(t) != h.repr(Sorted(EntryHashes(h, entries)));
  }

  /** The hash of an entry is the hash of no ordinary value. */
  lemma EntryHashIsApart(h: Hashing, v: Value, key: string, value: Value)
    requires TellsApart(h) && Ordinary(h, v) && IsPlain(v) && IsOrdinary(h, key) && !value.Other?
    ensures DHash(h, v) != PairHash(h, key, DHash(h, value))
  {
    hide Sorted, IsOrdinary, TellsApart, DHashes, EntryHashes;
    var pair := [h.sha(key), h.sha(DHash(h, value))];
    if DHash(h, v) == PairHash(h, key, DHash(h, value)) {
      match v
      case Text(s) => ListHashIsApart(h, pair, s);
      case List(items) =>
        SameListHash(h, DHashes(h, items), pair);
        var i := HashOccurs(DHashes(h, items), pair, 1);
        HashIsHash(h, value);
        NoDoubleHash(h, items[i], Preimage(h, value));
      case Dict(entries) =>
        SameListHash(h, EntryHashes(h, entries), pair);
        var i := HashOccurs(EntryHashes(h, entries), pair, 0);
        ListHashIsApart(h, [h.sha(entries[i].key), h.sha(DHash(h, entries[i].value))], key);
    }
  }

  /** The text that is hashed. */
  function Preimage(h: Hashing, v: Value): string {
    match v
    case Text(s) => s
    case Other(t) => t
    case List(items) => h.repr(Sorted(DHashes(h, items)))
    case Dict(entries) => h.repr(Sorted(EntryHashes(h, entries)))
  }

  lemma HashIsHash(h: Hashing, v: Value)
    ensures DHash(h, v) == h.sha(Preimage(h, v))
  {}

  lemma PairsAgree(h: Hashing, key: string, value: Value, key': string, value': Value)
    requires TellsApart(h) && IsOrdinary(h, key) && IsOrdinary(h, key')
    requires PairHash(h, key, DHash(h, value)) == PairHash(h, key', DHash(h, value'))
    ensures key == key' && DHash(h, value) == DHash(h, value')
  {
    hide DHashes, EntryHashes, Sorted;
    var a, b := [h.sha(key), h.sha(DHash(h, value))], [h.sha(key'), h.sha(DHash(h, value'))];
    SameListHash(h, a, b);
    HashIsHash(h, value);
    HashIsHash(h, value');
    assert multiset(a) == multiset{a[0], a[1]} && multiset(b) == multiset{b[0], b[1]};
    var i := HashOccurs(a, b, 0);
    assert i == 0;
    assert multiset{a[1]} == multiset(a) - multiset{a[0]};
    assert multiset{b[1]} == multiset(b) - multiset{b[0]};
    assert a[1] in multiset{b[1]};
  }

  /** Equal hashes of plain ordinary values mean that they differ in order only. */
  lemma {:induction false} SameHashRearranged(h: Hashing, v: Value, w: Value)
    requires TellsApart(h) && Ordinary(h, v) && Ordinary(h, w) && IsPlain(v) && IsPlain(w)
    requires DHash(h, v) == DHash(h, w)
    ensures Rearranged(v, w)
    decreases w, 1
  {
    hide TellsApart, IsOrdinary, Ordinary, IsPlain, Sorted, AllRearranged, EntriesAgree, DHashes, EntryHashes;
    ShapeOf(h, v);
    ShapeOf(h, w);
    if v.Text? && w.Text? {
      SameText(h, v.s, w.s);
    } else if v.Text? {
      ListHashIsApart(h, if w.List? then DHashes(h, w.items) else EntryHashes(h, w.entries), v.s);
    } else if w.Text? {
      ListHashIsApart(h, if v.List? then DHashes(h, v.items) else EntryHashes(h, v.entries), w.s);
    } else if v.List? && w.List? {
      SameListHash(h, DHashes(h, v.items), DHashes(h, w.items));
      var _ := MatchItems(h, v.items, w.items);
    } else if v.Dict? && w.Dict? {
      SameListHash(h, EntryHashes(h, v.entries), EntryHashes(h, w.entries));
      var _ := MatchEntries(h, v.entries, w.entries);
    } else if v.List? {
      ListIsNoDict(h, v.items, w.entries);
    } else {
      ListIsNoDict(h, w.items, v.entries);
    }
  }

  /** What a plain ordinary value consists of. */
  lemma ShapeOf(h: Hashing, v: Value)
    requires Ordinary(h, v) && IsPlain(v)
    ensures !v.Other? && (v.Text? ==> IsOrdinary(h, v.s)) && (v.List? ==> AreFine(h, v.items))
      && (v.Dict? ==> EntriesAreFine(h, v.entries) && v.entries != [])
  {}

  lemma ListIsNoDict(h: Hashing, items: seq<Value>, entries: seq<Entry>)
    requires TellsApart(h) && AreFine(h, items) && EntriesAreFine(h, entries) && entries != []
    ensures ListHash(h, DHashes(h, items)) != ListHash(h, EntryHashes(h, entries))
  {
    hide TellsApart, IsOrdinary, Ordinary, IsPlain, ListHash;
    if ListHash(h, DHashes(h, items)) == ListHash(h, EntryHashes(h, entries)) {
      SameListHash(h, DHashes(h, items), EntryHashes(h, entries));
      var i := HashOccurs(DHashes(h, items), EntryHashes(h, entries), 0);
      PlainIsNotOther(entries[0].value);
      EntryHashIsApart(h, items[i], entries[0].key, entries[0].value);
    }
  }

  lemma PlainIsNotOther(v: Value)
    requires IsPlain(v)
    ensures !v.Other?
  {}

  lemma SameText(h: Hashing, s: string, t: string)
    requires TellsApart(h) && h.sha(s) == h.sha(t)
    ensures s == t
  {}

  ghost predicate AreFine(h: Hashing, items: seq<Value>) {
    forall i :: 0 <= i < |items| ==> Ordinary(h, items[i]) && IsPlain(items[i])
  }

  ghost predicate EntriesAreFine(h: Hashing, entries: seq<Entry>) {
    forall i :: 0 <= i < |entries| ==>
      IsOrdinary(h, entries[i].key) && Ordinary(h, entries[i].value) && IsPlain(entries[i].value)
  }

  lemma OthersAreFine(h: Hashing, a: seq<Value>, i: nat)
    requires AreFine(h, a) && i < |a|
    ensures Ordinary(h, a[i]) && IsPlain(a[i]) && AreFine(h, a[..i] + a[i + 1..]) && AreFine(h, a[1..])
  {
    hide Ordinary, IsPlain;
  }

  lemma OtherEntriesAreFine(h: Hashing, a: seq<Entry>, i: nat)
    requires EntriesAreFine(h, a) && i < |a|
    ensures IsOrdinary(h, a[i].key) && Ordinary(h, a[i].value) && IsPlain(a[i].value)
    ensures EntriesAreFine(h, a[..i] + a[i + 1..]) && EntriesAreFine(h, a[1..])
  {
    hide Ordinary, IsPlain, IsOrdinary;
  }

  lemma {:induction false} MatchItems(h: Hashing, a: seq<Value>, b: seq<Value>) returns (c: seq<Value>)
    requires TellsApart(h)
    requires AreFine(h, a) && AreFine(h, b)
    requires multiset(DHashes(h, a)) == multiset(DHashes(h, b))
    ensures multiset(c) == multiset(a) && AllRearranged(c, b)
    decreases b, 0
  {
    hide TellsApart, Ordinary, IsPlain, DHash, Rearranged, AreFine;
    if b == [] {
      assert |multiset(DHashes(h, a))| == 0;
      return [];
    }
    var i := HashOccurs(DHashes(h, a), DHashes(h, b), 0);
    OthersAreFine(h, a, i);
    OthersAreFine(h, b, 0);
    SameHashRearranged(h, a[i], b[0]);
    HashesWithout(h, a, i);
    assert DHashes(h, b)[1..] == DHashes(h, b[1..]);
    hide DHashes;
    WithoutSame(DHashes(h, a), DHashes(h, b), i);
    var more := MatchItems(h, a[..i] + a[i + 1..], b[1..]);
    c := [a[i]] + more;
    assert c[1..] == more;
    PutBack(c, a, i);
  }

  lemma WithoutSame<T>(a: seq<T>, b: seq<T>, i: nat)
    requires multiset(a) == multiset(b) && b != [] && i < |a| && a[i] == b[0]
    ensures multiset(a[..i] + a[i + 1..]) == multiset(b[1..])
  {
    WithoutOne(a, i);
    assert b == [b[0]] + b[1..];
  }

  lemma {:induction false} MatchEntries(h: Hashing, a: seq<Entry>, b: seq<Entry>) returns (c: seq<Entry>)
    requires TellsApart(h)
    requires EntriesAreFine(h, a) && EntriesAreFine(h, b)
    requires multiset(EntryHashes(h, a)) == multiset(EntryHashes(h, b))
    ensures multiset(c) == multiset(a) && EntriesAgree(c, b)
    decreases b, 0
  {
    hide TellsApart, Ordinary, IsOrdinary, IsPlain, DHash, Rearranged, PairHash, EntriesAreFine;
    if b == [] {
      assert |multiset(EntryHashes(h, a))| == 0;
      return [];
    }
    var i := HashOccurs(EntryHashes(h, a), EntryHashes(h, b), 0);
    OtherEntriesAreFine(h, a, i);
    OtherEntriesAreFine(h, b, 0);
    PairsAgree(h, a[i].key, a[i].value, b[0].key, b[0].value);
    SameHashRearranged(h, a[i].value, b[0].value);
    EntryHashesWithout(h, a, i);
    assert EntryHashes(h, b)[1..] == EntryHashes(h, b[1..]);
    hide EntryHashes;
    WithoutSame(EntryHashes(h, a), EntryHashes(h, b), i);
    var more := MatchEntries(h, a[..i] + a[i + 1..], b[1..]);
    c := [a[i]] + more;
    assert c[1..] == more;
    PutBack(c, a, i);
  }

  /** Ordinary values share a hash iff they are the same up to order, scalar types and empty dictionaries. */
  lemma SameHashIff(h: Hashing, v: Value, w: Value)
    requires TellsApart(h) && Ordinary(h, v) && Ordinary(h, w)
    ensures DHash(h, v) == DHash(h, w) <==> Rearranged(Plain(v), Plain(w))
  {
    PlainIsPlain(h, v);
    PlainIsPlain(h, w);
    if DHash(h, v) == DHash(h, w) {
      SameHashRearranged(h, Plain(v), Plain(w));
    }
    if Rearranged(Plain(v), Plain(w)) {
      RearrangedSameHash(h, Plain(v), Plain(w));
    }
  }
}
