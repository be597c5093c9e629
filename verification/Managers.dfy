/** The snapshot of BasicManager (dev/svr/common/basic_manager.h) through the cursor functions of
  dev/lsf/util/serialize.hpp.  A size_t is eight bytes, low byte first.  The elements' protobuf
  messages are an abstract codec. */
module Managers {
  import opened Common
  import opened Numerals

  const SIZE: nat := 0x1_0000_0000_0000_0000

  /** key is GetKey; empty is a default-constructed element. */
  datatype Codec<!T> = Codec(bytes: T -> string, parse: string -> Option<T>, key: T -> int, empty: T)

  ghost predicate Lawful<T(!new)>(c: Codec<T>) {
    (forall t: T :: c.parse(c.bytes(t)) == Some(t)) && c.parse("") == Some(c.empty)
  }

  // ---- eight-byte lengths --------------------------------------------------

  function LowBytes(n: nat, k: nat): (b: string)
    ensures |b| == k
  {
    if k == 0 then "" else [(n % 256) as char] + LowBytes(n / 256, k - 1)
  }

  function Value(b: string): nat {
    if b == "" then 0 else b[0] as nat + 256 * Value(b[1..])
  }

  lemma {:induction false} ValueOfLowBytes(n: nat, k: nat)
    requires n < Power256(k)
    ensures Value(LowBytes(n, k)) == n
  {
    if k > 0 {
      ValueOfLowBytes(n / 256, k - 1);
      assert LowBytes(n, k)[1..] == LowBytes(n / 256, k - 1);
    }
  }

  function Word(n: nat): (b: string)
    ensures |b| == 8
  {
    LowBytes(n, 8)
  }

  lemma WordValue(n: nat)
    requires n < SIZE
    ensures Value(Word(n)) == n
  {
    assert Power256(2) == 0x1_0000;
    assert Power256(4) == 0x1_0000_0000;
    assert Power256(6) == 0x1_0000_0000_0000;
    ValueOfLowBytes(n, 8);
  }

  /** Byte i counts 256^i: the low byte comes first. */
  lemma {:induction false} LowByteAt(n: nat, k: nat, i: nat)
    requires i < k
    ensures LowBytes(n, k)[i] as nat == n / Power256(i) % 256
    decreases k
  {
    if i > 0 {
      LowByteAt(n / 256, k - 1, i - 1);
      DividedTwice(n, Power256(i - 1));
    }
  }

  lemma DividedTwice(n: nat, p: nat)
    requires p > 0
    ensures n / 256 / p == n / (256 * p)
  {
    var m := n / 256;
    var q := m / p;
    assert m == q * p + m % p && n == 256 * m + n % 256;
    assert n == q * (256 * p) + (256 * (m % p) + n % 256);
    QuotientIs(n, 256 * p, q, 256 * (m % p) + n % 256);
  }

  lemma QuotientIs(n: nat, d: nat, q: nat, r: nat)
    requires d > 0 && r < d && n == q * d + r
    ensures n / d == q
  {
    var x := n / d;
    var rest := n - x * d;
    assert 0 <= rest < d;
    assert (x - q) * d == r - rest && (q - x) * d == rest - r;
    if x > q { AtLeast(x - q, d); }
    if x < q { AtLeast(q - x, d); }
  }

  lemma AtLeast(k: nat, d: nat)
    requires k > 0
    ensures k * d >= d
  {
    assert k * d == (k - 1) * d + d;
  }

  // ---- the image of a manager ----------------------------------------------

  function Record<T>(c: Codec<T>, t: T): string {
    Word(|c.bytes(t)|) + c.bytes(t)
  }

  function Records<T>(c: Codec<T>, ts: seq<T>): string {
    if ts == [] then "" else Record(c, ts[0]) + Records(c, ts[1..])
  }

  function Image<T>(c: Codec<T>, ts: seq<T>): string {
    Word(|ts|) + Records(c, ts)
  }

  /** UnSerialize of a size_t at off. */
  function ReadWord(b: string, off: nat): Option<nat> {
    if off + 8 > |b| then None else Some(Value(b[off..off + 8]))
  }

  /** UnSerializeProtobuf at off: the element and the cursor after it. */
  function ReadElem<T>(c: Codec<T>, b: string, off: nat): (r: Option<(T, nat)>)
    ensures r.Some? ==> off < r.value.1 <= |b|
  {
    var n := ReadWord(b, off);
    if n.None? then None
    else if n.value == 0 then Some((c.empty, off + 8))
    else if off + 8 + n.value > |b| then None
    else
      var t := c.parse(b[off + 8..off + 8 + n.value]);
      if t.None? then None else Some((t.value, off + 8 + n.value))
  }

  /** The recovery loop of Init, with left rounds to go. */
  function Recovered<T>(c: Codec<T>, b: string, off: nat, left: nat, m: map<int, T>): Option<map<int, T>>
    decreases left
  {
    if left == 0 then Some(m)
    else
      var r := ReadElem(c, b, off);
      if r.None? then None else Recovered(c, b, r.value.1, left - 1, m[c.key(r.value.0) := r.value.0])
  }

  function Rounds(b: string, maxSize: nat): nat {
    var n := ReadWord(b, 0);
    if n.None? then 0 else if n.value < maxSize then n.value else maxSize
  }

  function Recover<T>(c: Codec<T>, b: string, maxSize: nat): Option<map<int, T>> {
    Recovered(c, b, if |b| >= 8 then 8 else 0, Rounds(b, maxSize), map[])
  }

  // ---- what comes back -----------------------------------------------------

  /** An order in which a hash map may be walked: every key once. */
  ghost predicate Walks<T>(order: seq<int>, m: map<int, T>) {
    && (forall i :: 0 <= i < |order| ==> order[i] in m)
    && (forall k :: k in m ==> k in order)
    && (forall i, j :: 0 <= i < j < |order| ==> order[i] != order[j])
  }

  ghost predicate Keyed<T>(c: Codec<T>, m: map<int, T>) {
    forall k :: k in m ==> c.key(m[k]) == k
  }

  function Along<T>(m: map<int, T>, order: seq<int>): (ts: seq<T>)
    requires forall i :: 0 <= i < |order| ==> order[i] in m
    ensures |ts| == |order| && forall i :: 0 <= i < |order| ==> ts[i] == m[order[i]]
  {
    seq(|order|, i requires 0 <= i < |order| => m[order[i]])
  }

  /** The part of m whose keys come among the first n. */
  ghost function Restricted<T>(m: map<int, T>, order: seq<int>, n: nat): map<int, T>
    requires n <= |order|
  {
    map k | k in m && k in order[..n] :: m[k]
  }

  /** What the sizing loop of Release adds up. */
  function TotalSize<T>(c: Codec<T>, ts: seq<T>): nat {
    if ts == [] then 0 else |c.bytes(ts[0])| + 8 + TotalSize(c, ts[1..])
  }

  lemma {:induction false} RecordsFillTheirSize<T>(c: Codec<T>, ts: seq<T>)
    ensures |Records(c, ts)| == TotalSize(c, ts)
    decreases |ts|
  {
    if ts != [] { RecordsFillTheirSize(c, ts[1..]); }
  }

  /** An element is read back where it was written, and the cursor is then after it. */
  lemma ElemRoundTrip<T(!new)>(c: Codec<T>, t: T, before: string, after: string)
    requires Lawful(c) && |c.bytes(t)| < SIZE
    ensures ReadElem(c, before + Record(c, t) + after, |before|) == Some((t, |before| + |Record(c, t)|))
  {
    hide Value, LowBytes, Word;
    var n := |c.bytes(t)|;
    var b := before + Record(c, t) + after;
    WordValue(n);
    assert b[|before|..|before| + 8] == Word(n);
    assert b[|before| + 8..|before| + 8 + n] == c.bytes(t);
    assert c.parse(c.bytes(t)) == Some(t);
    if n == 0 { assert c.bytes(t) == ""; }
  }

  /** The elements put into a map one after another. */
  function Inserted<T>(c: Codec<T>, ts: seq<T>, m: map<int, T>): map<int, T>
    decreases |ts|
  {
    if ts == [] then m else Inserted(c, ts[1..], m[c.key(ts[0]) := ts[0]])
  }

  lemma {:induction false} RecordsRoundTrip<T(!new)>(c: Codec<T>, before: string, ts: seq<T>, left: nat, m: map<int, T>)
    requires Lawful(c) && left <= |ts| && forall i :: 0 <= i < |ts| ==> |c.bytes(ts[i])| < SIZE
    ensures Recovered(c, before + Records(c, ts), |before|, left, m) == Some(Inserted(c, ts[..left], m))
    decreases left
  {
    hide ReadElem, Record, Lawful;
    if left > 0 {
      var t, rest := ts[0], Records(c, ts[1..]);
      Associates(before, Record(c, t), rest);
      ElemRoundTrip(c, t, before, rest);
      assert ts[..left][1..] == ts[1..][..left - 1];
      RecordsRoundTrip(c, before + Record(c, t), ts[1..], left - 1, m[c.key(t) := t]);
    }
  }

  lemma {:induction false} InsertedAlong<T>(c: Codec<T>, m: map<int, T>, order: seq<int>, n: nat, left: nat)
    requires Keyed(c, m) && Walks(order, m) && n + left <= |order|
    ensures Inserted(c, Along(m, order)[n..n + left], Restricted(m, order, n)) == Restricted(m, order, n + left)
    decreases left
  {
    if left > 0 {
      var ts := Along(m, order)[n..n + left];
      assert ts[1..] == Along(m, order)[n + 1..n + 1 + (left - 1)];
      RestrictedGrows(m, order, n);
      InsertedAlong(c, m, order, n + 1, left - 1);
    }
  }

  lemma RestrictedGrows<T>(m: map<int, T>, order: seq<int>, n: nat)
    requires n < |order| && order[n] in m
    ensures Restricted(m, order, n)[order[n] := m[order[n]]] == Restricted(m, order, n + 1)
  {
    assert order[..n + 1] == order[..n] + [order[n]];
  }

  function Least(a: nat, b: nat): nat {
    if a < b then a else b
  }

  /** Releasing in any order and initialising again brings back the elements that come first in that
    order, as many as the new size allows: */
  lemma ImageRoundTrip<T(!new)>(c: Codec<T>, m: map<int, T>, order: seq<int>, maxSize: nat)
    requires Lawful(c) && Keyed(c, m) && Walks(order, m) && |order| < SIZE
    requires forall k :: k in m ==> |c.bytes(m[k])| < SIZE
    ensures Recover(c, Image(c, Along(m, order)), maxSize) == Some(Restricted(m, order, Least(|order|, maxSize)))
  {
    hide Value, Word, Recovered, Records, Restricted, Inserted;
    var ts := Along(m, order);
    var n := Least(|order|, maxSize);
    var b := Image(c, ts);
    WordValue(|ts|);
    assert b[0..8] == Word(|ts|);
    RestrictedToNothing(m, order);
    forall i | 0 <= i < |ts|
      ensures |c.bytes(ts[i])| < SIZE
    {
      var k := order[i];
      assert k in m && |c.bytes(m[k])| < SIZE;
      assert ts[i] == m[k];
    }
    RecordsRoundTrip(c, Word(|ts|), ts, n, map[]);
    assert ts[..n] == ts[0..0 + n];
    InsertedAlong(c, m, order, 0, n);
  }

  lemma RestrictedToNothing<T>(m: map<int, T>, order: seq<int>)
    ensures Restricted(m, order, 0) == map[]
  {
  }

  lemma AllOfIt<T>(m: map<int, T>, order: seq<int>)
    requires Walks(order, m)
    ensures Restricted(m, order, |order|) == m
  {
    assert order[..|order|] == order;
    assert forall k :: k in m ==> k in order[..|order|];
    assert Restricted(m, order, |order|).Keys == m.Keys;
  }

  /** ... which is the same map exactly when the new size is at least the number of elements. */
  lemma SameMapIff<T(!new)>(c: Codec<T>, m: map<int, T>, order: seq<int>, maxSize: nat)
    requires Lawful(c) && Keyed(c, m) && Walks(order, m) && |order| < SIZE
    requires forall k :: k in m ==> |c.bytes(m[k])| < SIZE
    ensures Recover(c, Image(c, Along(m, order)), maxSize) == Some(m) <==> |order| <= maxSize
  {
    hide Recover, Image;
    ImageRoundTrip(c, m, order, maxSize);
    if |order| <= maxSize {
      AllOfIt(m, order);
    } else {
      var lost := order[maxSize];
      assert forall j :: 0 <= j < maxSize ==> order[j] != lost;
      assert lost in m && lost !in Restricted(m, order, maxSize);
    }
  }

  // ---- writing and reading through a cursor --------------------------------

  method Put(buf: array<char>, off: nat, b: string)
    requires off + |b| <= buf.Length
    modifies buf
    ensures buf[off..off + |b|] == b && buf[..off] == old(buf[..off])
  {
    forall k | 0 <= k < |b| {
      buf[off + k] := b[k];
    }
  }

  /** Serialize of a size_t. */
  method SerializeWord(buf: array<char>, off: nat, n: nat) returns (ok: bool, next: nat)
    requires off <= buf.Length
    modifies buf
    ensures ok <==> off + 8 <= buf.Length
    ensures ok ==> next == off + 8 && buf[..next] == old(buf[..off]) + Word(n)
    ensures !ok ==> next == off && buf[..] == old(buf[..])
  {
    hide Word;
    if off + 8 > buf.Length {
      return false, off;
    }
    Put(buf, off, Word(n));
    ok, next := true, off + 8;
    assert buf[..next] == buf[..off] + buf[off..off + 8];
  }

  /** SerializeProtobuf. */
  method SerializeElem<T>(c: Codec<T>, buf: array<char>, off: nat, t: T) returns (ok: bool, next: nat)
    requires off <= buf.Length
    modifies buf
    ensures ok <==> off + |Record(c, t)| <= buf.Length
    ensures ok ==> next == off + |Record(c, t)| && buf[..next] == old(buf[..off]) + Record(c, t)
  {
    hide Word;
    var bytes := c.bytes(t);
    var n := |bytes|;
    ok, next := SerializeWord(buf, off, n);
    if !ok {
      return;
    }
    if n == 0 {
      assert bytes == "" && Word(n) + "" == Word(n);
      return;
    }
    if next + n > buf.Length {
      return false, next;
    }
    ghost var before := buf[..next];
    Put(buf, next, bytes);
    assert buf[..next + n] == before + bytes;
    next := next + n;
  }

  /** UnSerialize of a size_t. */
  method UnSerializeWord(buf: string, off: nat, unset: nat) returns (ok: bool, next: nat, n: nat)
    ensures ok <==> ReadWord(buf, off).Some?
    ensures if ok then next == off + 8 && n == ReadWord(buf, off).value else next == off && n == unset
  {
    if off + 8 > |buf| {
      return false, off, unset;
    }
    ok, next, n := true, off + 8, Value(buf[off..off + 8]);
  }

  /** UnSerializeProtobuf into a default-constructed element. */
  method UnSerializeElem<T>(c: Codec<T>, buf: string, off: nat) returns (ok: bool, next: nat, t: T)
    ensures ok <==> ReadElem(c, buf, off).Some?
    ensures ok ==> ReadElem(c, buf, off) == Some((t, next))
  {
    var n;
    t := c.empty;
    ok, next, n := UnSerializeWord(buf, off, 0);
    if !ok || n == 0 {
      return;
    }
    if next + n > |buf| {
      return false, next, t;
    }
    var parsed := c.parse(buf[next..next + n]);
    if parsed.None? {
      return false, next, t;
    }
    t := parsed.value;
    next := next + n;
  }

  /** The shared memory segments of the machine; they outlive a manager. */
  class SharedMemory {
    var segments: map<int, string>

    constructor ()
      ensures segments == map[]
    {
      segments := map[];
    }
  }

  class Manager<T> {
    const codec: Codec<T>
    const memory: SharedMemory
    var items: map<int, T>
    var shmKey: int
    var maxSize: nat
    var isInit: bool

    constructor (codec: Codec<T>, memory: SharedMemory)
      ensures this.codec == codec && this.memory == memory && items == map[] && !isInit
    {
      this.codec, this.memory, items, shmKey, maxSize, isInit := codec, memory, map[], 0, 0, false;
    }

    method Init(key: int, size: nat) returns (ok: bool)
      modifies this, memory
      ensures size == 0 ==> !ok && items == old(items) && memory.segments == old(memory.segments)
      ensures size > 0 && (key == 0 || key !in old(memory.segments)) ==>
                ok && items == old(items) && memory.segments == old(memory.segments)
      ensures size > 0 && key != 0 && key in old(memory.segments) ==>
                var b := old(memory.segments)[key];
                var r := Recovered(codec, b, if |b| >= 8 then 8 else 0, Rounds(b, size), old(items));
                && ok == r.Some?
                && (ok ==> items == r.value && memory.segments == old(memory.segments) - {key})
      ensures ok ==> isInit && shmKey == key && maxSize == size
      ensures !ok ==> memory.segments == old(memory.segments)
    {
      hide ReadElem;
      if size == 0 {
        return false;
      }
      shmKey, maxSize := key, size;
      if shmKey != 0 && shmKey in memory.segments {
        var b := memory.segments[shmKey];
        var read, off, count := UnSerializeWord(b, 0, 0);
        var i := 0;
        ghost var start := off;
        while i < count && i < size
          invariant i <= Rounds(b, size)
          invariant Recovered(codec, b, off, Rounds(b, size) - i, items)
              == Recovered(codec, b, start, Rounds(b, size), old(items))
          invariant shmKey == key && maxSize == size && memory.segments == old(memory.segments)
        {
          var good, next, t := UnSerializeElem(codec, b, off);
          if !good {
            return false;
          }
          off := next;
          items := items[codec.key(t) := t];
          i := i + 1;
        }
        memory.segments := memory.segments - {shmKey};
      }
      isInit := true;
      ok := true;
    }

    /** order is the order in which the hash map is walked; deletable and creatable are the system's answers.
      The segment is as long as the sizing loop says, and the serialization loop fills it exactly. */
    method Release(order: seq<int>, deletable: bool, creatable: bool) returns (ok: bool)
      requires Walks(order, items)
      modifies memory
      ensures ok <==> shmKey == 0 || ((shmKey in old(memory.segments) ==> deletable) && creatable)
      ensures ok && shmKey == 0 ==> memory.segments == old(memory.segments)
      ensures !ok ==> memory.segments == if deletable then old(memory.segments) - {shmKey} else old(memory.segments)
      ensures ok && shmKey != 0 ==> memory.segments == old(memory.segments)[shmKey := Image(codec, Along(items, order))]
    {
      hide Word, Record;
      if shmKey == 0 {
        return true;
      }
      if shmKey in memory.segments {
        if !deletable {
          return false;
        }
        memory.segments := memory.segments - {shmKey};
      }
      var ts := Along(items, order);
      var byteSize := SizeOf(ts);
      if !creatable {
        return false;
      }
      var buf := new char[byteSize];
      RecordsFillTheirSize(codec, ts);
      ok := Fill(buf, ts);
      memory.segments := memory.segments[shmKey := buf[..]];
    }

    /** The sizing loop. */
    method SizeOf(ts: seq<T>) returns (byteSize: nat)
      ensures byteSize == 8 + TotalSize(codec, ts)
    {
      byteSize := 8;
      var i := 0;
      while i < |ts|
        invariant i <= |ts| && byteSize + TotalSize(codec, ts[i..]) == 8 + TotalSize(codec, ts)
      {
        byteSize := byteSize + |codec.bytes(ts[i])|;
        byteSize := byteSize + 8;
        i := i + 1;
      }
    }

    /** The serialization loop: it never runs out, and ends at the end. */
    method Fill(buf: array<char>, ts: seq<T>) returns (ok: bool)
      requires buf.Length == 8 + |Records(codec, ts)|
      modifies buf
      ensures ok && buf[..] == Image(codec, ts)
    {
      hide Word, Record;
      var off: nat;
      ok, off := SerializeWord(buf, 0, |ts|);
      assert buf[..off] + Records(codec, ts) == Image(codec, ts);
      var i := 0;
      while i < |ts|
        invariant i <= |ts| && off <= buf.Length && ok
        invariant buf[..off] + Records(codec, ts[i..]) == Image(codec, ts)
      {
        var t, rest := ts[i], Records(codec, ts[i + 1..]);
        assert ts[i..][1..] == ts[i + 1..];
        Associates(buf[..off], Record(codec, t), rest);
        assert |Image(codec, ts)| == buf.Length;
        ok, off := SerializeElem(codec, buf, off, t);
        if !ok {
          return;
        }
        i := i + 1;
      }
      assert buf[..off] + "" == Image(codec, ts);
    }
  }

  lemma {:induction false} WalkLength<T>(order: seq<int>, m: map<int, T>)
    requires Walks(order, m)
    ensures |order| == |m|
    decreases |order|
  {
    if order == [] {
      assert forall k :: k in m ==> k in order;
      assert m.Keys == {};
    } else {
      var last := order[|order| - 1];
      var front, rest := order[..|order| - 1], m - {last};
      assert forall k :: k in order ==> k == last || k in front;
      assert m.Keys == rest.Keys + {last};
      WalkLength(front, rest);
    }
  }

  lemma RestrictedLength<T>(m: map<int, T>, order: seq<int>, n: nat)
    requires Walks(order, m) && n <= |order|
    ensures |Restricted(m, order, n)| == n
  {
    assert forall k :: k in order[..n] ==> k in m;
    WalkLength(order[..n], Restricted(m, order, n));
  }

  /** A process ends and the next one begins: the new manager holds the elements that come first in the
    order the old map was walked in, as many as its size allows, which is all the old one held exactly
    when there is room for them; and the segment is gone. */
  method Restarted<T(!new)>(was: Manager<T>, order: seq<int>, size: nat) returns (ok: bool, now: Manager<T>)
    requires Lawful(was.codec) && Keyed(was.codec, was.items) && Walks(order, was.items) && was.shmKey != 0
    requires 0 < size && |order| < SIZE && forall k :: k in was.items ==> |was.codec.bytes(was.items[k])| < SIZE
    modifies was.memory
    ensures fresh(now) && ok && was.shmKey !in was.memory.segments
    ensures now.items == Restricted(old(was.items), order, Least(|order|, size))
    ensures now.items == old(was.items) <==> |order| <= size
  {
    hide Image, Recovered, ReadElem, Restricted, Lawful, Keyed;
    ok := was.Release(order, true, true);
    ImageRoundTrip(was.codec, was.items, order, size);
    SameMapIff(was.codec, was.items, order, size);
    ImageIsLong(was.codec, Along(was.items, order));
    now := new Manager(was.codec, was.memory);
    ok := now.Init(was.shmKey, size);
  }

  lemma ImageIsLong<T>(c: Codec<T>, ts: seq<T>)
    ensures |Image(c, ts)| >= 8
  {
  }
}
