/**
 The bytes on disk: what an entry, a log record, a trie and a snapshot look like, byte for
 byte, with the heads of section 3 of RFC 8949.
 */
module Wire {
  import opened Arith
  import opened Entries
  import opened Cbor
  import opened Codec
  import F = Fibonacci
  import opened Trie

  /** Byte i of an n-byte number is its base-256 digit of weight n - 1 - i. */
  lemma {:induction false} BigEndian(x: nat, n: nat, i: nat)
    requires i < n
    ensures Pow256(n - 1 - i) > 0 && BE(x, n)[i] == x / Pow256(n - 1 - i) % 256
  {
    PowPositive(n - 1 - i);
    if i < n - 1 {
      BigEndian(x / 256, n - 1, i);
      var p := Pow256(n - 2 - i);
      assert Pow256(n - 1 - i) == 256 * p;
      DivideTwice(x, 256, p);
    } else {
      assert Pow256(0) == 1;
    }
  }

  lemma PowPositive(n: nat)
    ensures Pow256(n) > 0
  {
  }

  /** Numbers of two, four and eight bytes: a head byte, then the digits. */
  function ShortBytes(v: nat): seq<Byte>
  {
    [0x19] + BE(v, 2)
  }

  function WordBytes(v: nat): seq<Byte>
  {
    [0x1A] + BE(v, 4)
  }

  function LongBytes(v: nat): seq<Byte>
  {
    [0x1B] + BE(v, 8)
  }

  lemma NumberWire(v: nat)
    ensures v < 0x1_0000 ==> Valid(Uint(2, v)) && Serialize(Uint(2, v)) == ShortBytes(v)
    ensures v < 0x1_0000_0000 ==> Valid(Uint(4, v)) && Serialize(Uint(4, v)) == WordBytes(v)
    ensures v < 0x1_0000_0000_0000_0000 ==> Valid(Uint(8, v)) && Serialize(Uint(8, v)) == LongBytes(v)
  {
    PowerValues();
  }

  lemma HashWire(h: Hash)
    ensures Valid(Bytes(h)) && Serialize(Bytes(h)) == [0x58, 0x20] + h
  {
    PowerValues();
    assert BE(32, 1) == BE(0, 0) + [32] == [0x20];
  }

  lemma {:induction false} ArrayWire(items: seq<Item>)
    requires |items| < 24 && forall i | 0 <= i < |items| :: Valid(items[i])
    ensures Valid(Array(items)) && Serialize(Array(items)) == [0x80 + |items|] + SerializeAll(items)
  {
    PowerValues();
  }

  /** A hit counter: level, count and threshold. */
  function CounterBytes(c: F.Counter): seq<Byte>
  {
    [0x83] + WordBytes(c.fib) + WordBytes(c.count) + WordBytes(c.threshold)
  }

  /** An entry: an array of counter, hash, slot, section, ejection date, claims and pins. */
  function EntryBytes(e: Entry): seq<Byte>
  {
    [0x87] + CounterBytes(e.counter) + [0x58, 0x20] + e.hash + LongBytes(e.sectionIndex) + LongBytes(e.sectionId)
      + LongBytes(e.ejectionDate) + ShortBytes(e.ephemeralCount) + WordBytes(e.pinCount)
  }

  lemma {:induction false} CounterWire(c: F.Counter)
    ensures Valid(CounterItem(c)) && Serialize(CounterItem(c)) == CounterBytes(c)
  {
    NumberWire(c.fib);
    NumberWire(c.count);
    NumberWire(c.threshold);
    hide Serialize, SerializeAll, WordBytes;
    var items := CounterItem(c).items;
    ArrayWire(items);
    SplitWire(items, 0);
    SplitWire(items, 1);
    LastWire(items);
    assert items[0..] == items;
  }

  lemma SplitWire(items: seq<Item>, k: nat)
    requires k < |items| && forall i | 0 <= i < |items| :: Valid(items[i])
    ensures SerializeAll(items[k..]) == Serialize(items[k]) + SerializeAll(items[k + 1..])
  {
    assert items[k..][0] == items[k] && items[k..][1..] == items[k + 1..];
  }

  lemma LastWire(items: seq<Item>)
    requires items != [] && forall i | 0 <= i < |items| :: Valid(items[i])
    ensures SerializeAll(items[|items| - 1..]) == Serialize(items[|items| - 1])
  {
    SplitWire(items, |items| - 1);
    assert items[|items|..] == [];
  }

  lemma FieldsValid(e: Entry)
    ensures forall i | 0 <= i < 7 :: Valid(EntryItem(e).items[i])
  {
    PowerValues();
    CounterWire(e.counter);
    HashWire(e.hash);
  }

  /** The counts of claims and pins, which end an entry. */
  lemma {:induction false} CountsWire(e: Entry)
    ensures forall i | 0 <= i < 7 :: Valid(EntryItem(e).items[i])
    ensures SerializeAll(EntryItem(e).items[5..]) == ShortBytes(e.ephemeralCount) + WordBytes(e.pinCount)
  {
    FieldsValid(e);
    NumberWire(e.ephemeralCount);
    NumberWire(e.pinCount);
    hide Serialize, SerializeAll, Valid, ShortBytes, WordBytes;
    var items := EntryItem(e).items;
    SplitWire(items, 5);
    LastWire(items);
  }

  /** The fields of an entry from the section's slot on. */
  lemma {:induction false} PlaceWire(e: Entry)
    ensures forall i | 0 <= i < 7 :: Valid(EntryItem(e).items[i])
    ensures SerializeAll(EntryItem(e).items[2..]) ==
            LongBytes(e.sectionIndex) + LongBytes(e.sectionId) + LongBytes(e.ejectionDate)
            + ShortBytes(e.ephemeralCount) + WordBytes(e.pinCount)
  {
    CountsWire(e);
    NumberWire(e.sectionIndex);
    NumberWire(e.sectionId);
    NumberWire(e.ejectionDate);
    hide Serialize, SerializeAll, Valid, ShortBytes, WordBytes, LongBytes;
    var items := EntryItem(e).items;
    SplitWire(items, 2);
    SplitWire(items, 3);
    SplitWire(items, 4);
    Joined(LongBytes(e.sectionIndex), LongBytes(e.sectionId), LongBytes(e.ejectionDate), ShortBytes(e.ephemeralCount),
           WordBytes(e.pinCount));
  }

  lemma Joined(a: seq<Byte>, b: seq<Byte>, c: seq<Byte>, d: seq<Byte>, e: seq<Byte>)
    ensures a + (b + (c + (d + e))) == a + b + c + d + e
  {
  }

  lemma {:induction false} EntryWire(e: Entry)
    ensures Valid(EntryItem(e))
    ensures Serialize(EntryItem(e)) == EntryBytes(e)
  {
    PlaceWire(e);
    CounterWire(e.counter);
    HashWire(e.hash);
    hide Serialize, SerializeAll, CounterBytes, ShortBytes, WordBytes, LongBytes;
    var items := EntryItem(e).items;
    ArrayWire(items);
    SplitWire(items, 0);
    SplitWire(items, 1);
    assert items[0..] == items;
  }

  lemma {:induction false} TwoWire(a: Item, b: Item)
    requires Valid(a) && Valid(b)
    ensures Valid(Array([a, b])) && Serialize(Array([a, b])) == [0x82] + Serialize(a) + Serialize(b)
  {
    PowerValues();
    hide Serialize;
    ArrayWire([a, b]);
    assert [a, b][1..] == [b] && [b][1..] == [];
    assert SerializeAll([b]) == Serialize(b) + SerializeAll([]) == Serialize(b);
    assert SerializeAll([a, b]) == Serialize(a) + SerializeAll([b]);
  }

  /** Log records: one letter for the tag, and entries, hashes and dates as payload. */
  lemma {:induction false} RecordWire(r: Record)
    ensures Tag(r) == (match r
                       case Addition(_) => 'a'
                       case Increment(_) => 'i'
                       case Ejection(_, _) => 'e'
                       case Removal(_) => 'r'
                       case Metadata(_) => 'm') as int
    ensures r.Removal? ==> Payload(r) == [0x58, 0x20] + r.hash
    ensures r.Ejection? ==> Payload(r) == [0x82, 0x58, 0x20] + r.hash + LongBytes(r.date)
    ensures r.Addition? || r.Increment? || r.Metadata? ==> Payload(r) == EntryBytes(r.entry)
  {
    hide Serialize, EntryBytes, LongBytes;
    match r
    case Removal(h) => HashWire(h);
    case Ejection(h, date) =>
      HashWire(h);
      NumberWire(date);
      TwoWire(Bytes(h), Uint(8, date));
      assert [0x82] + ([0x58, 0x20] + h) + LongBytes(date) == [0x82, 0x58, 0x20] + h + LongBytes(date);
    case _ => EntryWire(r.entry);
  }

  function BucketBytes(b: seq<Entry>): seq<Byte>
  {
    if b == [] then [] else EntryBytes(b[0]) + BucketBytes(b[1..])
  }

  /** A bucket is its entries, one after the other. */
  lemma {:induction false} BucketWire(b: seq<Entry>)
    ensures forall i | 0 <= i < |b| :: Valid(EntryItems(b)[i])
    ensures SerializeAll(EntryItems(b)) == BucketBytes(b)
  {
    hide Serialize, EntryBytes;
    if b != [] {
      EntryWire(b[0]);
      BucketWire(b[1..]);
      assert EntryItems(b)[1..] == EntryItems(b[1..]);
    }
  }

  /** A branch is the two children, left before right; a leaf is its bucket. */
  lemma {:induction false} NodeWire(n: Node)
    requires Writable(n)
    ensures Valid(NodeItem(n))
    ensures n.Branch? ==>
              && Valid(NodeItem(n.left)) && Valid(NodeItem(n.right))
              && Serialize(NodeItem(n)) == [0x82] + Serialize(NodeItem(n.left)) + Serialize(NodeItem(n.right))
    ensures n.Leaf? ==>
              && Valid(Array(EntryItems(n.bucket)))
              && Serialize(NodeItem(n)) == [0x81] + Serialize(Array(EntryItems(n.bucket)))
  {
    NodeItemValid(n);
    hide Serialize;
    match n
    case Branch(left, right) =>
      NodeItemValid(left);
      NodeItemValid(right);
      TwoWire(NodeItem(left), NodeItem(right));
    case Leaf(b) =>
      var item := Array(EntryItems(b));
      assert Valid(item) by {
        assert NodeItem(n).items[0] == item;
      }
      ArrayWire([item]);
      assert [item][1..] == [];
      assert SerializeAll([item]) == Serialize(item) + SerializeAll([]) == Serialize(item);
  }

  /** A snapshot is the trie and the bucket size. */
  lemma {:induction false} SnapshotWire(n: Node, size: U64)
    requires Writable(n)
    ensures Valid(NodeItem(n))
    ensures SnapshotBytes(n, size) == [0x82] + Serialize(NodeItem(n)) + LongBytes(size)
  {
    hide Serialize, LongBytes;
    NodeItemValid(n);
    NumberWire(size);
    TwoWire(NodeItem(n), Uint(8, size));
  }
}
