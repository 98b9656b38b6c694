/** How entries, log records and whole tries are written as CBOR. */
module Codec {
  import opened Entries
  import opened Cbor
  import F = Fibonacci
  import opened Trie

  // ---- entries ----

  function CounterItem(c: F.Counter): Item
  {
    Array([Uint(4, c.fib), Uint(4, c.count), Uint(4, c.threshold)])
  }

  function EntryItem(e: Entry): Item
  {
    Array([CounterItem(e.counter), Bytes(e.hash), Uint(8, e.sectionIndex), Uint(8, e.sectionId),
           Uint(8, e.ejectionDate), Uint(2, e.ephemeralCount), Uint(4, e.pinCount)])
  }

  /** The five-field form older writers used: no claims, no pins. */
  function LegacyEntryItem(e: Entry): Item
  {
    Array(EntryItem(e).items[..5])
  }

  function ItemCounter(item: Item): Option<F.Counter>
  {
    if item.Array? && |item.items| >= 3 && Word(item.items[0]) && Word(item.items[1]) && Word(item.items[2])
    then Some(F.Counter(item.items[0].value, item.items[1].value, item.items[2].value))
    else None
  }

  predicate Word(item: Item)
  {
    item.Uint? && item.width == 4 && item.value < 0x1_0000_0000
  }

  predicate Long(item: Item)
  {
    item.Uint? && item.value < 0x1_0000_0000_0000_0000
  }

  /** An optional trailing count: absent or not a number is 0, too large saturates. */
  function Saturated(items: seq<Item>, k: nat, max: nat): nat
  {
    if k >= |items| || !items[k].Uint? then 0
    else if items[k].value > max then max
    else items[k].value
  }

  /** Decode an entry; a hash that is not 32 bytes long is rejected. */
  function ItemEntry(item: Item): Option<Entry>
  {
    if !item.Array? || |item.items| < 5 then None
    else
      var it := item.items;
      if !(it[1].Bytes? && |it[1].bytes| == 32 && Long(it[2]) && Long(it[3]) && Long(it[4])) then None
      else
        var counter :- ItemCounter(it[0]);
        Some(Entry(it[1].bytes, counter, it[2].value, it[3].value, it[4].value,
                   Saturated(it, 5, 0xFFFF), Saturated(it, 6, 0xFFFF_FFFF)))
  }

  lemma EntryRoundTrip(e: Entry)
    ensures ItemEntry(EntryItem(e)) == Some(e)
    ensures ItemEntry(LegacyEntryItem(e)) == Some(e.(ephemeralCount := 0, pinCount := 0))
  {
  }

  /** Claims and pins of any width are read, and held at what the entry can hold; what is not a
      number counts as none. */
  lemma CountsSaturate(e: Entry, claims: Item, pins: Item)
    ensures var r := ItemEntry(Array(EntryItem(e).items[..5] + [claims, pins]));
            && r.Some? && r.value == e.(ephemeralCount := r.value.ephemeralCount, pinCount := r.value.pinCount)
            && (claims.Uint? ==> r.value.ephemeralCount == if claims.value < 0x1_0000 then claims.value else 0xFFFF)
            && (pins.Uint? ==> r.value.pinCount == if pins.value < 0x1_0000_0000 then pins.value else 0xFFFF_FFFF)
            && (!claims.Uint? ==> r.value.ephemeralCount == 0) && (!pins.Uint? ==> r.value.pinCount == 0)
  {
  }

  // ---- sizes on disk ----

  lemma {:induction false} UintSize(w: nat, v: nat)
    requires (w == 2 || w == 4 || w == 8) && v < Pow256(w)
    ensures Valid(Uint(w, v)) && |Serialize(Uint(w, v))| == w + 1
  {
  }

  lemma {:induction false} HashSize(h: Hash)
    ensures Valid(Bytes(h)) && |Serialize(Bytes(h))| == 34
  {
    PowerValues();
  }

  lemma {:induction false} ArraySize(items: seq<Item>)
    requires |items| < 24 && forall i | 0 <= i < |items| :: Valid(items[i])
    ensures Valid(Array(items)) && |Serialize(Array(items))| == 1 + |SerializeAll(items)|
  {
    PowerValues();
  }

  lemma {:induction false} ConcatSize(a: seq<Item>, b: seq<Item>)
    requires forall i | 0 <= i < |a| :: Valid(a[i])
    requires forall i | 0 <= i < |b| :: Valid(b[i])
    ensures |SerializeAll(a + b)| == |SerializeAll(a)| + |SerializeAll(b)|
    decreases |a|
  {
    if a == [] {
      assert a + b == b;
    } else {
      assert (a + b)[0] == a[0] && (a + b)[1..] == a[1..] + b;
      ConcatSize(a[1..], b);
    }
  }

  lemma {:induction false} OneSize(item: Item)
    requires Valid(item)
    ensures |SerializeAll([item])| == |Serialize(item)|
  {
    assert [item][1..] == [];
    assert SerializeAll([item]) == Serialize(item) + SerializeAll([item][1..]);
  }

  lemma {:induction false} TwoSize(a: Item, b: Item)
    requires Valid(a) && Valid(b)
    ensures |SerializeAll([a, b])| == |Serialize(a)| + |Serialize(b)|
  {
    OneSize(a);
    OneSize(b);
    ConcatSize([a], [b]);
    assert [a] + [b] == [a, b];
  }

  lemma {:induction false} CounterSize(c: F.Counter)
    ensures Valid(CounterItem(c)) && |Serialize(CounterItem(c))| == 16
  {
    PowerValues();
    var x, y, z := Uint(4, c.fib), Uint(4, c.count), Uint(4, c.threshold);
    UintSize(4, c.fib);
    UintSize(4, c.count);
    UintSize(4, c.threshold);
    TwoSize(x, y);
    OneSize(z);
    ConcatSize([x, y], [z]);
    assert [x, y] + [z] == [x, y, z];
    ArraySize([x, y, z]);
  }

  /** The five leading fields of an entry take 77 bytes. */
  lemma {:induction false} FieldsSize(e: Entry)
    ensures forall i | 0 <= i < 5 :: Valid(EntryItem(e).items[i])
    ensures |SerializeAll(EntryItem(e).items[..5])| == 77
  {
    PowerValues();
    var c, h := CounterItem(e.counter), Bytes(e.hash);
    var x, y, z := Uint(8, e.sectionIndex), Uint(8, e.sectionId), Uint(8, e.ejectionDate);
    CounterSize(e.counter);
    HashSize(e.hash);
    TwoSize(c, h);
    UintSize(8, e.sectionIndex);
    UintSize(8, e.sectionId);
    UintSize(8, e.ejectionDate);
    TwoSize(x, y);
    OneSize(z);
    ConcatSize([x, y], [z]);
    ConcatSize([c, h], [x, y] + [z]);
    assert EntryItem(e).items[..5] == [c, h] + ([x, y] + [z]);
  }

  /** A modern entry takes 86 bytes, a legacy one 78. */
  lemma {:induction false} EntrySize(e: Entry)
    ensures Valid(EntryItem(e)) && |Serialize(EntryItem(e))| == 86
    ensures Valid(LegacyEntryItem(e)) && |Serialize(LegacyEntryItem(e))| == 78
  {
    PowerValues();
    FieldsSize(e);
    var five, u, v := EntryItem(e).items[..5], Uint(2, e.ephemeralCount), Uint(4, e.pinCount);
    UintSize(2, e.ephemeralCount);
    UintSize(4, e.pinCount);
    TwoSize(u, v);
    ConcatSize(five, [u, v]);
    assert EntryItem(e).items == five + [u, v];
    ArraySize(EntryItem(e).items);
    ArraySize(five);
  }

  // ---- log records ----

  const ADD: Byte := 97
  const REMOVE: Byte := 114
  const INCREMENT: Byte := 105
  const EJECT: Byte := 101
  const META: Byte := 109

  function Tag(r: Record): Byte
  {
    match r
    case Addition(_) => ADD
    case Increment(_) => INCREMENT
    case Ejection(_, _) => EJECT
    case Removal(_) => REMOVE
    case Metadata(_) => META
  }

  function RecordItem(r: Record): Item
  {
    match r
    case Addition(e) => EntryItem(e)
    case Increment(e) => EntryItem(e)
    case Ejection(h, date) => Array([Bytes(h), Uint(8, date)])
    case Removal(h) => Bytes(h)
    case Metadata(e) => EntryItem(e)
  }

  /** The payload length that goes with a tag; None for an unknown tag. */
  function PayloadSize(tag: Byte, legacy: bool): Option<nat>
  {
    if tag == ADD || tag == INCREMENT then Some(if legacy then 78 else 86)
    else if tag == META then Some(86)
    else if tag == EJECT then Some(44)
    else if tag == REMOVE then Some(34)
    else None
  }

  lemma {:induction false} RecordSize(r: Record)
    ensures Valid(RecordItem(r))
    ensures PayloadSize(Tag(r), false) == Some(|Serialize(RecordItem(r))|)
  {
    match r
    case Addition(e) => EntrySize(e);
    case Increment(e) => EntrySize(e);
    case Metadata(e) => EntrySize(e);
    case Removal(h) => HashSize(h);
    case Ejection(h, date) =>
      PowerValues();
      HashSize(h);
      UintSize(8, date);
      TwoSize(Bytes(h), Uint(8, date));
      ArraySize([Bytes(h), Uint(8, date)]);
  }

  function Payload(r: Record): seq<Byte>
  {
    RecordSize(r);
    Serialize(RecordItem(r))
  }

  /** What replay makes of a payload; None means the record is skipped. */
  function DecodeRecord(tag: Byte, payload: seq<Byte>): Option<Record>
  {
    var item :- Parse(payload);
    ItemRecord(tag, item.value)
  }

  function ItemRecord(tag: Byte, item: Item): Option<Record>
  {
    if tag == REMOVE then
      if item.Bytes? && |item.bytes| == 32 then Some(Removal(item.bytes)) else None
    else if tag == EJECT then
      if item.Array? && |item.items| >= 2 && item.items[0].Bytes? && |item.items[0].bytes| == 32 && Long(item.items[1])
      then Some(Ejection(item.items[0].bytes, item.items[1].value))
      else None
    else
      var e :- ItemEntry(item);
      if tag == ADD then Some(Addition(e))
      else if tag == INCREMENT then Some(Increment(e))
      else if tag == META then Some(Metadata(e))
      else None
  }

  /** Decoding a record's payload gives the record. */
  lemma {:induction false} RecordRoundTrip(r: Record)
    ensures DecodeRecord(Tag(r), Payload(r)) == Some(r)
  {
    RecordSize(r);
    RoundTrip(RecordItem(r), []);
    assert Payload(r) + [] == Payload(r);
    if r.Addition? || r.Increment? || r.Metadata? {
      EntryRoundTrip(r.entry);
    }
  }

  // ---- tries ----

  function EntryItems(b: seq<Entry>): seq<Item>
  {
    seq(|b|, i requires 0 <= i < |b| => EntryItem(b[i]))
  }

  function ItemEntries(items: seq<Item>): Option<seq<Entry>>
  {
    if items == [] then Some([])
    else
      var e :- ItemEntry(items[0]);
      var rest :- ItemEntries(items[1..]);
      Some([e] + rest)
  }

  function NodeItem(n: Node): Item
  {
    match n
    case Branch(left, right) => Array([NodeItem(left), NodeItem(right)])
    case Leaf(b) => Array([Array(EntryItems(b))])
  }

  function ItemNode(item: Item): Option<Node>
  {
    if !item.Array? then None
    else if |item.items| == 2 then
      var left :- ItemNode(item.items[0]);
      var right :- ItemNode(item.items[1]);
      Some(Branch(left, right))
    else if |item.items| == 1 && item.items[0].Array? then
      var b :- ItemEntries(item.items[0].items);
      Some(Leaf(b))
    else None
  }

  lemma {:induction false} EntriesRoundTrip(b: seq<Entry>)
    ensures ItemEntries(EntryItems(b)) == Some(b)
  {
    if b != [] {
      EntryRoundTrip(b[0]);
      EntriesRoundTrip(b[1..]);
      assert EntryItems(b)[1..] == EntryItems(b[1..]) && [b[0]] + b[1..] == b;
    }
  }

  /** Decoding an encoded trie gives the same trie, shape included. */
  lemma {:induction false} NodeRoundTrip(n: Node)
    ensures ItemNode(NodeItem(n)) == Some(n)
  {
    match n
    case Branch(left, right) =>
      NodeRoundTrip(left);
      NodeRoundTrip(right);
    case Leaf(b) =>
      EntriesRoundTrip(b);
  }

  /** No bucket is too long for a CBOR array head. */
  predicate Writable(n: Node)
  {
    match n
    case Branch(left, right) => Writable(left) && Writable(right)
    case Leaf(b) => |b| < Pow256(8)
  }

  lemma {:induction false} NodeItemValid(n: Node)
    requires Writable(n)
    ensures Valid(NodeItem(n))
  {
    PowerValues();
    match n
    case Branch(left, right) =>
      NodeItemValid(left);
      NodeItemValid(right);
    case Leaf(b) =>
      forall i | 0 <= i < |b|
        ensures Valid(EntryItems(b)[i])
      {
        EntrySize(b[i]);
      }
      assert Valid(Array(EntryItems(b)));
  }

  /** The body of a snapshot file: the trie and the bucket size. */
  function SnapshotBytes(n: Node, size: U64): seq<Byte>
    requires Writable(n)
  {
    SnapshotValid(n, size);
    Serialize(SnapshotItem(n, size))
  }

  function SnapshotItem(n: Node, size: U64): Item
  {
    Array([NodeItem(n), Uint(8, size)])
  }

  lemma SnapshotValid(n: Node, size: U64)
    requires Writable(n)
    ensures Valid(SnapshotItem(n, size))
  {
    PowerValues();
    NodeItemValid(n);
  }

  datatype Snapshot = Snapshot(node: Node, size: nat)

  function ReadSnapshot(bytes: seq<Byte>): Option<Snapshot>
  {
    var item :- Parse(bytes);
    if item.value.Array? && |item.value.items| >= 2 && item.value.items[1].Uint? then
      var n :- ItemNode(item.value.items[0]);
      Some(Snapshot(n, item.value.items[1].value))
    else None
  }

  /** A snapshot file is read back whole, and any torn file is rejected. */
  lemma {:induction false} SnapshotRoundTrip(n: Node, size: U64, cut: nat)
    requires Writable(n) && cut <= |SnapshotBytes(n, size)|
    ensures ReadSnapshot(SnapshotBytes(n, size)[..cut])
            == if cut == |SnapshotBytes(n, size)| then Some(Snapshot(n, size)) else None
  {
    SnapshotValid(n, size);
    var s := SnapshotBytes(n, size);
    if cut < |s| {
      TornNeverParses(SnapshotItem(n, size), cut);
    } else {
      RoundTrip(SnapshotItem(n, size), []);
      assert s + [] == s == s[..cut];
      NodeRoundTrip(n);
    }
  }
}
