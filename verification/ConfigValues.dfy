/** Configurations: `config_dhash`, `config_encode` and `config_decode` of `mwdb/core/util.py`. */
module ConfigValues {
  import opened Wrappers
  import opened Glob
  import opened LikeTranslation

  /** A configuration value; `Other` is a number, a boolean or null, with its text. */
  datatype Value = Text(s: string) | Other(text: string) | List(items: seq<Value>) | Dict(entries: seq<Entry>)

  datatype Entry = Entry(key: string, value: Value)

  // ---- Sorting strings ------------------------------------------------------------------------------

  predicate AtMost(a: string, b: string)
    decreases |a|
  {
    a == "" || (b != "" && (a[0] < b[0] || (a[0] == b[0] && AtMost(a[1..], b[1..]))))
  }

  lemma {:induction false} AtMostTotal(a: string, b: string)
    ensures AtMost(a, b) || AtMost(b, a)
    decreases |a|
  {
    if a != "" && b != "" {
      AtMostTotal(a[1..], b[1..]);
    }
  }

  lemma {:induction false} AtMostAntisymmetric(a: string, b: string)
    requires AtMost(a, b) && AtMost(b, a)
    ensures a == b
    decreases |a|
  {
    if a != "" {
      AtMostAntisymmetric(a[1..], b[1..]);
      assert a == [a[0]] + a[1..] && b == [b[0]] + b[1..];
    }
  }

  lemma {:induction false} AtMostTransitive(a: string, b: string, c: string)
    requires AtMost(a, b) && AtMost(b, c)
    ensures AtMost(a, c)
    decreases |a|
  {
    if a != "" && a[0] == b[0] == c[0] {
      AtMostTransitive(a[1..], b[1..], c[1..]);
    }
  }

  function Insert(x: string, s: seq<string>): seq<string> {
    if s == [] || AtMost(x, s[0]) then [x] + s else [s[0]] + Insert(x, s[1..])
  }

  /** `sorted` */
  function Sorted(s: seq<string>): seq<string> {
    if s == [] then [] else Insert(s[0], Sorted(s[1..]))
  }

  lemma {:induction false} InsertsCommute(x: string, y: string, s: seq<string>)
    ensures Insert(x, Insert(y, s)) == Insert(y, Insert(x, s))
    decreases |s|
  {
    AtMostTotal(x, y);
    if AtMost(x, y) && AtMost(y, x) {
      AtMostAntisymmetric(x, y);
    } else if s == [] {
      assert Insert(x, [y]) == Insert(y, [x]);
    } else {
      AtMostTotal(x, s[0]);
      AtMostTotal(y, s[0]);
      if AtMost(x, s[0]) && !AtMost(y, s[0]) {
        AtMostTransitive(x, s[0], y);
        OneBefore(x, y, s);
      } else if AtMost(y, s[0]) && !AtMost(x, s[0]) {
        AtMostTransitive(y, s[0], x);
        OneBefore(y, x, s);
      } else if AtMost(x, s[0]) {
        assert ([x] + s)[1..] == s && ([y] + s)[1..] == s;
      } else {
        InsertsCommute(x, y, s[1..]);
        var a, b := Insert(x, s), Insert(y, s);
        assert a[1..] == Insert(x, s[1..]) && b[1..] == Insert(y, s[1..]);
      }
    }
  }

  lemma OneBefore(x: string, y: string, s: seq<string>)
    requires s != [] && AtMost(x, s[0]) && !AtMost(y, s[0]) && AtMost(x, y) && !AtMost(y, x)
    ensures Insert(x, Insert(y, s)) == Insert(y, Insert(x, s))
  {
    assert ([x] + s)[1..] == s;
  }

  lemma {:induction false} SortedTakes(s: seq<string>, i: nat)
    requires i < |s|
    ensures Sorted(s) == Insert(s[i], Sorted(s[..i] + s[i + 1..]))
    decreases |s|
  {
    var rest := s[..i] + s[i + 1..];
    if i == 0 {
      assert rest == s[1..];
    } else {
      assert rest[0] == s[0] && rest[1..] == s[1..][..i - 1] + s[1..][i..];
      SortedTakes(s[1..], i - 1);
      InsertsCommute(s[0], s[i], Sorted(rest[1..]));
    }
  }

  /** Sorting forgets the order. */
  lemma {:induction false} SortedForgetsOrder(a: seq<string>, b: seq<string>)
    requires multiset(a) == multiset(b)
    ensures Sorted(a) == Sorted(b)
    decreases |a|
  {
    if a == [] {
      assert |multiset(b)| == 0;
    } else {
      assert a[0] in multiset(b);
      var i :| 0 <= i < |b| && b[i] == a[0];
      var rest := b[..i] + b[i + 1..];
      WithoutOne(b, i);
      assert a == [a[0]] + a[1..];
      assert multiset(a[1..]) == multiset(a) - multiset{a[0]};
      SortedForgetsOrder(a[1..], rest);
      SortedTakes(b, i);
    }
  }

  lemma WithoutOne<T>(s: seq<T>, i: nat)
    requires i < |s|
    ensures multiset(s[..i] + s[i + 1..]) == multiset(s) - multiset{s[i]}
  {
    assert s == s[..i] + [s[i]] + s[i + 1..];
  }

  // ---- Hashing ----------------------------------------------------------------------------------------

  /** The hash of a text, and the text Python gives for a list of strings. */
  datatype Hashing = Hashing(sha: string -> string, repr: seq<string> -> string)

  /** The hash of a list whose elements have the given hashes. */
  function ListHash(h: Hashing, hashes: seq<string>): string {
    h.sha(h.repr(Sorted(hashes)))
  }

  /** The hash of the pair that stands for a dictionary entry. */
  function PairHash(h: Hashing, key: string, valueHash: string): string {
    ListHash(h, [h.sha(key), h.sha(valueHash)])
  }

  /** `config_dhash` */
  function DHash(h: Hashing, v: Value): string
    decreases v
  {
    match v
    case Text(s) => h.sha(s)
    case Other(t) => h.sha(t)
    case List(items) => ListHash(h, DHashes(h, items))
    case Dict(entries) => ListHash(h, EntryHashes(h, entries))
  }

  function DHashes(h: Hashing, items: seq<Value>): (hashes: seq<string>)
    ensures |hashes| == |items| && forall i :: 0 <= i < |items| ==> hashes[i] == DHash(h, items[i])
    decreases items
  {
    if items == [] then [] else [DHash(h, items[0])] + DHashes(h, items[1..])
  }

  /** The keys are sorted first, but the hashes of the pairs are sorted again. */
  function EntryHashes(h: Hashing, entries: seq<Entry>): (hashes: seq<string>)
    ensures |hashes| == |entries| && forall i :: 0 <= i < |entries| ==>
      hashes[i] == PairHash(h, entries[i].key, DHash(h, entries[i].value))
    decreases entries
  {
    if entries == [] then []
      else [PairHash(h, entries[0].key, DHash(h, entries[0].value))] + EntryHashes(h, entries[1..])
  }

  /** The same value with lists and dictionaries in another order, at any depth. */
  ghost predicate Rearranged(v: Value, w: Value)
    decreases w
  {
    match w
    case Text(_) => v == w
    case Other(_) => v == w
    case List(items) => v.List? && exists c: seq<Value> :: multiset(c) == multiset(v.items) && AllRearranged(c, items)
    case Dict(entries) => v.Dict? && exists c: seq<Entry> ::
        multiset(c) == multiset(v.entries) && EntriesAgree(c, entries)
  }

  ghost predicate AllRearranged(c: seq<Value>, items: seq<Value>)
    decreases items
  {
    if items == [] then c == [] else c != [] && Rearranged(c[0], items[0]) && AllRearranged(c[1..], items[1..])
  }

  ghost predicate EntriesAgree(c: seq<Entry>, entries: seq<Entry>)
    decreases entries
  {
    if entries == [] then c == []
    else
      && c != [] && c[0].key == entries[0].key && Rearranged(c[0].value, entries[0].value)
      && EntriesAgree(c[1..], entries[1..])
  }

  /** The first element of one sequence, taken out of another one with the same elements. */
  lemma TakeFirst<T>(a: seq<T>, b: seq<T>) returns (i: nat)
    requires a != [] && multiset(a) == multiset(b)
    ensures i < |b| && b[i] == a[0] && multiset(a[1..]) == multiset(b[..i] + b[i + 1..])
  {
    assert a[0] in multiset(b);
    i :| 0 <= i < |b| && b[i] == a[0];
    WithoutOne(b, i);
    assert a == [a[0]] + a[1..];
  }

  lemma PutBack<T>(a: seq<T>, b: seq<T>, i: nat)
    requires a != [] && i < |b| && b[i] == a[0] && multiset(a[1..]) == multiset(b[..i] + b[i + 1..])
    ensures multiset(a) == multiset(b)
  {
    WithoutOne(b, i);
    assert a == [a[0]] + a[1..];
  }

  lemma HashesWithout(h: Hashing, b: seq<Value>, i: nat)
    requires i < |b|
    ensures DHashes(h, b[..i] + b[i + 1..]) == DHashes(h, b)[..i] + DHashes(h, b)[i + 1..]
  {
    hide DHash;
  }

  lemma {:induction false} HashesRearranged(h: Hashing, a: seq<Value>, b: seq<Value>)
    requires multiset(a) == multiset(b)
    ensures multiset(DHashes(h, a)) == multiset(DHashes(h, b))
    decreases |a|
  {
    hide DHash;
    if a == [] {
      assert |multiset(b)| == 0;
    } else {
      var i := TakeFirst(a, b);
      HashesRearranged(h, a[1..], b[..i] + b[i + 1..]);
      HashesWithout(h, b, i);
      hide DHashes;
      assert DHashes(h, a)[1..] == DHashes(h, a[1..]);
      PutBack(DHashes(h, a), DHashes(h, b), i);
    }
  }

  lemma EntryHashesWithout(h: Hashing, b: seq<Entry>, i: nat)
    requires i < |b|
    ensures EntryHashes(h, b[..i] + b[i + 1..]) == EntryHashes(h, b)[..i] + EntryHashes(h, b)[i + 1..]
  {
    hide DHash, PairHash;
  }

  lemma {:induction false} EntriesRearranged(h: Hashing, a: seq<Entry>, b: seq<Entry>)
    requires multiset(a) == multiset(b)
    ensures multiset(EntryHashes(h, a)) == multiset(EntryHashes(h, b))
    decreases |a|
  {
    hide DHash, PairHash;
    if a == [] {
      assert |multiset(b)| == 0;
    } else {
      var i := TakeFirst(a, b);
      EntriesRearranged(h, a[1..], b[..i] + b[i + 1..]);
      EntryHashesWithout(h, b, i);
      hide EntryHashes;
      assert EntryHashes(h, a)[1..] == EntryHashes(h, a[1..]);
      PutBack(EntryHashes(h, a), EntryHashes(h, b), i);
    }
  }

  /** The hash does not depend on the order of lists and dictionaries. */
  lemma {:induction false} RearrangedSameHash(h: Hashing, v: Value, w: Value)
    requires Rearranged(v, w)
    ensures DHash(h, v) == DHash(h, w)
    decreases w
  {
    match w
    case Text(_) =>
    case Other(_) =>
    case List(items) =>
      var c: seq<Value> :| multiset(c) == multiset(v.items) && AllRearranged(c, items);
      SameHashes(h, c, items);
      HashesRearranged(h, c, v.items);
      SortedForgetsOrder(DHashes(h, v.items), DHashes(h, items));
    case Dict(entries) =>
      var c: seq<Entry> :| multiset(c) == multiset(v.entries) && EntriesAgree(c, entries);
      SameEntryHashes(h, c, entries);
      EntriesRearranged(h, c, v.entries);
      SortedForgetsOrder(EntryHashes(h, v.entries), EntryHashes(h, entries));
  }

  lemma {:induction false} SameHashes(h: Hashing, c: seq<Value>, items: seq<Value>)
    requires AllRearranged(c, items)
    ensures DHashes(h, c) == DHashes(h, items)
    decreases items
  {
    hide DHash;
    if items != [] {
      RearrangedSameHash(h, c[0], items[0]);
      SameHashes(h, c[1..], items[1..]);
    }
  }

  lemma {:induction false} SameEntryHashes(h: Hashing, c: seq<Entry>, entries: seq<Entry>)
    requires EntriesAgree(c, entries)
    ensures EntryHashes(h, c) == EntryHashes(h, entries)
    decreases entries
  {
    hide DHash;
    if entries != [] {
      RearrangedSameHash(h, c[0].value, entries[0].value);
      SameEntryHashes(h, c[1..], entries[1..]);
    }
  }

  // ---- Storage ----------------------------------------------------------------------------------------

  function HexValue(c: char): Option<nat> {
    if '0' <= c <= '9' then Some(c as int - '0' as int)
    else if 'a' <= c <= 'f' then Some(c as int - 'a' as int + 10)
    else if 'A' <= c <= 'F' then Some(c as int - 'A' as int + 10)
    else None
  }

  function HexNumber(s: string): Option<nat> {
    if s == "" then Some(0)
    else
      var front, last := HexNumber(s[..|s| - 1]), HexValue(s[|s| - 1]);
      if front.Some? && last.Some? then Some(front.value * 16 + last.value) else None
  }

  /** The character of a number, if there is one. */
  function CharOf(n: nat): Option<char> {
    if n < 0xd800 || 0xe000 <= n < 0x110000 then Some(n as char) else None
  }

  function PrependChar(c: Option<char>, rest: Option<string>): Option<string> {
    if c.Some? && rest.Some? then Some([c.value] + rest.value) else None
  }

  /** An escape with `digits` hexadecimal digits behind its letter. */
  function DecodeHex(t: string, digits: nat): Option<string>
    requires |t| >= 2
    decreases |t|, 0
  {
    if |t| < 2 + digits then None
    else
      var n := HexNumber(t[2..2 + digits]);
      if n.None? then None else PrependChar(CharOf(n.value), DecodeText(t[2 + digits..]))
  }

  /** `bytes(text, "utf-8").decode("unicode_escape")` on ASCII text. */
  function DecodeText(t: string): Option<string>
    decreases |t|, 1
  {
    if t == "" then Some("")
    else if t[0] as int >= 0x80 then None
    else if t[0] != '\\' then PrependChar(Some(t[0]), DecodeText(t[1..]))
    else if |t| == 1 then None
    else
      match t[1]
      case '\\' => PrependChar(Some('\\'), DecodeText(t[2..]))
      case 't' => PrependChar(Some('\t'), DecodeText(t[2..]))
      case 'n' => PrependChar(Some('\n'), DecodeText(t[2..]))
      case 'r' => PrependChar(Some('\r'), DecodeText(t[2..]))
      case 'x' => DecodeHex(t, 2)
      case 'u' => DecodeHex(t, 4)
      case 'U' => DecodeHex(t, 8)
      case _ => None
  }

  function Power16(n: nat): nat {
    if n == 0 then 1 else 16 * Power16(n - 1)
  }

  lemma {:induction false} HexIsRead(n: nat, digits: nat)
    requires n < Power16(digits)
    ensures |Hex(n, digits)| == digits && HexNumber(Hex(n, digits)) == Some(n)
    decreases digits
  {
    if digits > 0 {
      HexIsRead(n / 16, digits - 1);
      DigitIsRead(n % 16);
      var s := Hex(n, digits);
      assert s[..|s| - 1] == Hex(n / 16, digits - 1);
    }
  }

  lemma DigitIsRead(d: nat)
    requires d < 16
    ensures HexValue(HexDigit(d)) == Some(d)
  {
    assert "0123456789abcdef" == ['0', '1', '2', '3', '4', '5', '6', '7', '8', '9', 'a', 'b', 'c', 'd', 'e', 'f'];
  }

  lemma HexIsDecoded(c: char, letter: char, digits: nat, rest: string)
    requires c as int < Power16(digits)
    ensures var t := ['\\', letter] + Hex(c as int, digits) + rest;
      DecodeHex(t, digits) == PrependChar(Some(c), DecodeText(rest))
  {
    HexIsRead(c as int, digits);
    var t := ['\\', letter] + Hex(c as int, digits) + rest;
    assert t[2..2 + digits] == Hex(c as int, digits) && t[2 + digits..] == rest;
  }

  lemma Powers()
    ensures Power16(2) == 0x100 && Power16(4) == 0x10000 && Power16(8) == 0x100000000
  {
    assert Power16(1) == 16 && Power16(2) == 0x100 && Power16(3) == 0x1000 && Power16(4) == 0x10000;
    assert Power16(5) == 0x100000 && Power16(6) == 0x1000000 && Power16(7) == 0x10000000;
  }

  lemma EscapeIsDecoded(letter: char, c: char, rest: string)
    requires (letter == '\\' && c == '\\') || (letter == 't' && c == '\t') || (letter == 'n' && c == '\n')
      || (letter == 'r' && c == '\r')
    ensures DecodeText(['\\', letter] + rest) == PrependChar(Some(c), DecodeText(rest))
  {
    assert (['\\', letter] + rest)[2..] == rest;
  }

  lemma PlainIsDecoded(c: char, rest: string)
    requires ' ' <= c <= '~' && c != '\\'
    ensures DecodeText([c] + rest) == PrependChar(Some(c), DecodeText(rest))
  {
    assert ([c] + rest)[1..] == rest;
  }

  lemma HexEscapeIsDecoded(letter: char, digits: nat, c: char, rest: string)
    requires (letter == 'x' && digits == 2) || (letter == 'u' && digits == 4) || (letter == 'U' && digits == 8)
    requires c as int < Power16(digits)
    ensures DecodeText(['\\', letter] + Hex(c as int, digits) + rest) == PrependChar(Some(c), DecodeText(rest))
  {
    hide Hex, DecodeHex, Power16;
    HexIsDecoded(c, letter, digits, rest);
    var t := ['\\', letter] + Hex(c as int, digits) + rest;
    assert t[0] == '\\' && t[1] == letter;
  }

  lemma CharIsDecoded(c: char, rest: string)
    ensures DecodeText(UnicodeEscape(c) + rest) == PrependChar(Some(c), DecodeText(rest))
  {
    hide DecodeText, Hex, Power16, PrependChar;
    Powers();
    if c == '\\' {
      EscapeIsDecoded('\\', c, rest);
    } else if c == '\t' {
      EscapeIsDecoded('t', c, rest);
    } else if c == '\n' {
      EscapeIsDecoded('n', c, rest);
    } else if c == '\r' {
      EscapeIsDecoded('r', c, rest);
    } else if ' ' <= c <= '~' {
      PlainIsDecoded(c, rest);
    } else if c as int < 0x100 {
      HexEscapeIsDecoded('x', 2, c, rest);
      assert UnicodeEscape(c) == ['\\', 'x'] + Hex(c as int, 2);
    } else if c as int < 0x10000 {
      HexEscapeIsDecoded('u', 4, c, rest);
      assert UnicodeEscape(c) == ['\\', 'u'] + Hex(c as int, 4);
    } else {
      HexEscapeIsDecoded('U', 8, c, rest);
      assert UnicodeEscape(c) == ['\\', 'U'] + Hex(c as int, 8);
    }
  }

  lemma {:induction false} TextIsDecoded(s: string)
    ensures DecodeText(EncodeWith(UnicodeEscape, s)) == Some(s)
    decreases |s|
  {
    if s != "" {
      TextIsDecoded(s[1..]);
      CharIsDecoded(s[0], EncodeWith(UnicodeEscape, s[1..]));
      assert [s[0]] + s[1..] == s;
    }
  }

  /** `config_encode` */
  function Encode(v: Value): Value
    decreases v
  {
    match v
    case Text(s) => Text(EncodeWith(UnicodeEscape, s))
    case Other(_) => v
    case List(items) => List(EncodeAll(items))
    case Dict(entries) => Dict(EncodeEntries(entries))
  }

  function EncodeAll(items: seq<Value>): seq<Value>
    decreases items
  {
    if items == [] then [] else [Encode(items[0])] + EncodeAll(items[1..])
  }

  function EncodeEntries(entries: seq<Entry>): seq<Entry>
    decreases entries
  {
    if entries == [] then [] else [Entry(entries[0].key, Encode(entries[0].value))] + EncodeEntries(entries[1..])
  }

  /** `config_decode`; a text that is no escaped text is an error. */
  function Decode(v: Value): Option<Value>
    decreases v
  {
    match v
    case Text(s) => (match DecodeText(s) case Some(t) => Some(Text(t)) case None => None)
    case Other(_) => Some(v)
    case List(items) => (match DecodeAll(items) case Some(r) => Some(List(r)) case None => None)
    case Dict(entries) => (match DecodeEntries(entries) case Some(r) => Some(Dict(r)) case None => None)
  }

  function DecodeAll(items: seq<Value>): Option<seq<Value>>
    decreases items
  {
    if items == [] then Some([])
    else
      var first, rest := Decode(items[0]), DecodeAll(items[1..]);
      if first.Some? && rest.Some? then Some([first.value] + rest.value) else None
  }

  function DecodeEntries(entries: seq<Entry>): Option<seq<Entry>>
    decreases entries
  {
    if entries == [] then Some([])
    else
      var first, rest := Decode(entries[0].value), DecodeEntries(entries[1..]);
      if first.Some? && rest.Some? then Some([Entry(entries[0].key, first.value)] + rest.value) else None
  }

  /** What is stored is read back. */
  lemma {:induction false} EncodedIsDecoded(v: Value)
    ensures Decode(Encode(v)) == Some(v)
    decreases v
  {
    match v
    case Text(s) => TextIsDecoded(s);
    case Other(_) =>
    case List(items) => AllAreDecoded(items);
    case Dict(entries) => EntriesAreDecoded(entries);
  }

  lemma {:induction false} AllAreDecoded(items: seq<Value>)
    ensures DecodeAll(EncodeAll(items)) == Some(items)
    decreases items
  {
    if items != [] {
      EncodedIsDecoded(items[0]);
      AllAreDecoded(items[1..]);
      assert EncodeAll(items)[1..] == EncodeAll(items[1..]);
      assert [items[0]] + items[1..] == items;
    }
  }

  lemma {:induction false} EntriesAreDecoded(entries: seq<Entry>)
    ensures DecodeEntries(EncodeEntries(entries)) == Some(entries)
    decreases entries
  {
    if entries != [] {
      EncodedIsDecoded(entries[0].value);
      EntriesAreDecoded(entries[1..]);
      assert EncodeEntries(entries)[1..] == EncodeEntries(entries[1..]);
      assert [entries[0]] + entries[1..] == entries;
    }
  }

  /** Printable texts at any depth; keys are not encoded. */
  predicate IsPrintable(v: Value)
    decreases v
  {
    match v
    case Text(s) => Printable(s)
    case Other(_) => true
    case List(items) => forall i :: 0 <= i < |items| ==> IsPrintable(items[i])
    case Dict(entries) => forall i :: 0 <= i < |entries| ==> IsPrintable(entries[i].value)
  }

  /** The same lists and dictionaries, with other texts in them. */
  predicate SameShape(v: Value, w: Value)
    decreases v
  {
    match v
    case Text(_) => w.Text?
    case Other(_) => w == v
    case List(items) => w.List? && |w.items| == |items| && forall i :: 0 <= i < |items| ==>
      SameShape(items[i], w.items[i])
    case Dict(entries) => w.Dict? && |w.entries| == |entries| && forall i :: 0 <= i < |entries| ==>
      w.entries[i].key == entries[i].key && SameShape(entries[i].value, w.entries[i].value)
  }

  lemma {:induction false} EncodedTextIsPrintable(s: string)
    ensures Printable(EncodeWith(UnicodeEscape, s))
    decreases |s|
  {
    hide UnicodeEscape;
    if s != "" {
      EscapeIsPrintable(s[0]);
      EncodedTextIsPrintable(s[1..]);
    }
  }

  /** What is stored is printable ASCII at any depth, with the same structure, keys and scalars. */
  lemma {:induction false} EncodedIsPrintable(v: Value)
    ensures IsPrintable(Encode(v)) && SameShape(v, Encode(v))
    decreases v, 0
  {
    match v
    case Text(s) => EncodedTextIsPrintable(s);
    case Other(_) =>
    case List(items) => AllArePrintable(items);
    case Dict(entries) => EntriesArePrintable(entries);
  }

  lemma {:induction false} AllArePrintable(items: seq<Value>)
    ensures IsPrintable(List(EncodeAll(items))) && SameShape(List(items), List(EncodeAll(items)))
    decreases items, 0
  {
    hide Encode;
    if items != [] {
      EncodedIsPrintable(items[0]);
      AllArePrintable(items[1..]);
      var all, rest := EncodeAll(items), EncodeAll(items[1..]);
      assert all == [Encode(items[0])] + rest;
      assert forall i :: 0 < i < |items| ==> all[i] == rest[i - 1] && items[i] == items[1..][i - 1];
    }
  }

  lemma {:induction false} EntriesArePrintable(entries: seq<Entry>)
    ensures IsPrintable(Dict(EncodeEntries(entries))) && SameShape(Dict(entries), Dict(EncodeEntries(entries)))
    decreases entries, 0
  {
    hide Encode;
    if entries != [] {
      EncodedIsPrintable(entries[0].value);
      EntriesArePrintable(entries[1..]);
      var all, rest := EncodeEntries(entries), EncodeEntries(entries[1..]);
      assert all == [Entry(entries[0].key, Encode(entries[0].value))] + rest;
      assert forall i :: 0 < i < |entries| ==> all[i] == rest[i - 1] && entries[i] == entries[1..][i - 1];
    }
  }
}
