/**
 * The bytes of the session-event store: little-endian numbers, the record of an
 * event, the entry file around a payload, and the hash of a payload.
 */
module Wire {
  import opened Basics

  type Byte = b: nat | b < 256
  type Bytes = seq<Byte>

  // --------------------------------------------------------------- numbers

  /** A number in size bytes, the low byte first. */
  function Word(n: nat, size: nat): (r: Bytes)
    ensures |r| == size
  {
    if size == 0 then [] else [n % 256] + Word(n / 256, size - 1)
  }

  function Number(bytes: Bytes): nat {
    if bytes == [] then 0 else bytes[0] + 256 * Number(bytes[1..])
  }

  /** The numbers that fit into size bytes. */
  function Limit(size: nat): (r: nat)
    ensures r > 0
  {
    if size == 0 then 1 else 256 * Limit(size - 1)
  }

  lemma {:induction false} WordReads(n: nat, size: nat)
    requires n < Limit(size)
    ensures Number(Word(n, size)) == n
  {
    if size > 0 {
      WordReads(n / 256, size - 1);
      assert Word(n, size)[1..] == Word(n / 256, size - 1);
    }
  }

  lemma {:induction false} NumberWrites(bytes: Bytes)
    ensures Number(bytes) < Limit(|bytes|) && Word(Number(bytes), |bytes|) == bytes
  {
    if bytes != [] {
      NumberWrites(bytes[1..]);
      LowByte(bytes[0], Number(bytes[1..]));
      assert bytes == [bytes[0]] + bytes[1..];
    }
  }

  lemma LowByte(low: Byte, rest: nat)
    ensures (low + 256 * rest) % 256 == low && (low + 256 * rest) / 256 == rest
  {
  }

  // ---------------------------------------------------------------- fields

  function Sum(sizes: seq<nat>): nat {
    if sizes == [] then 0 else sizes[0] + Sum(sizes[1..])
  }

  /** Numbers one after the other, each in its size. */
  function Pack(fields: seq<nat>, sizes: seq<nat>): (r: Bytes)
    requires |fields| == |sizes|
    ensures |r| == Sum(sizes)
  {
    if sizes == [] then [] else Word(fields[0], sizes[0]) + Pack(fields[1..], sizes[1..])
  }

  function Unpack(bytes: Bytes, sizes: seq<nat>): (r: seq<nat>)
    requires |bytes| == Sum(sizes)
    ensures |r| == |sizes|
  {
    if sizes == [] then [] else [Number(bytes[..sizes[0]])] + Unpack(bytes[sizes[0]..], sizes[1..])
  }

  ghost predicate Sized(fields: seq<nat>, sizes: seq<nat>) {
    |fields| == |sizes| && forall i :: 0 <= i < |fields| ==> fields[i] < Limit(sizes[i])
  }

  lemma {:induction false} PackReads(fields: seq<nat>, sizes: seq<nat>)
    requires Sized(fields, sizes)
    ensures Unpack(Pack(fields, sizes), sizes) == fields
  {
    if sizes != [] {
      var first, rest := Word(fields[0], sizes[0]), Pack(fields[1..], sizes[1..]);
      WordReads(fields[0], sizes[0]);
      PackReads(fields[1..], sizes[1..]);
      assert (first + rest)[..sizes[0]] == first && (first + rest)[sizes[0]..] == rest;
      assert fields == [fields[0]] + fields[1..];
    }
  }

  lemma {:induction false} UnpackWrites(bytes: Bytes, sizes: seq<nat>)
    requires |bytes| == Sum(sizes)
    ensures Sized(Unpack(bytes, sizes), sizes) && Pack(Unpack(bytes, sizes), sizes) == bytes
  {
    if sizes != [] {
      var first, rest := bytes[..sizes[0]], bytes[sizes[0]..];
      NumberWrites(first);
      UnpackWrites(rest, sizes[1..]);
      PackNext(Number(first), Unpack(rest, sizes[1..]), sizes);
      assert bytes == first + rest;
    }
  }

  lemma PackNext(first: nat, rest: seq<nat>, sizes: seq<nat>)
    requires sizes != [] && first < Limit(sizes[0]) && Sized(rest, sizes[1..])
    ensures Sized([first] + rest, sizes) && Pack([first] + rest, sizes) == Word(first, sizes[0]) + Pack(rest, sizes[1..])
  {
    assert ([first] + rest)[1..] == rest;
  }

  // ---------------------------------------------------------------- events

  /** The kinds of event that the checks of a record tell apart. */
  const SEND := 1
  const SELECT := 3
  const OFFER := 4
  const DETACH := 6
  const STOP := 7
  const CHECKPOINT_BASE := 8
  const CHECKPOINT_ROLLBACK := 9
  const STORE_PENDING := 12
  const TIER_RESTORE := 17
  const EPOCHED_DELEGATE := 18
  const EPOCHED_ACCEPT := 19
  const CHECKPOINT_COMMIT := 20
  const CHECKPOINT_ABORT := 22

  const RECORD_BYTES := 72

  datatype Event = Event(step: nat, session: nat, sender: nat, receiver: nat, schema: nat, payload: nat,
                         epoch: nat, generation: nat, op: nat, branch: nat, reason: nat, crash: nat)

  predicate IsCipher(op: nat) {
    STORE_PENDING <= op <= TIER_RESTORE
  }

  /** The control byte names a value of the enumeration that its kind reads it as. */
  predicate ControlValid(op: nat, reason: nat) {
    if op == SEND || op == SELECT then reason <= 1
    else if op == STOP then reason <= 3
    else if op == DETACH then reason <= 5
    else if op == CHECKPOINT_BASE then reason == 1
    else if op == CHECKPOINT_ROLLBACK then reason == 2
    else if CHECKPOINT_COMMIT <= op <= CHECKPOINT_ABORT then reason <= 1
    else if IsCipher(op) then reason <= 2
    else reason == 0
  }

  predicate BranchValid(op: nat, branch: nat) {
    if op == SELECT || op == OFFER then true else if IsCipher(op) then branch <= 2 else branch == 0
  }

  /** The checks of a record, byte by byte. */
  predicate Checked(e: Event) {
    && SEND <= e.op <= CHECKPOINT_ABORT
    && ControlValid(e.op, e.reason) && BranchValid(e.op, e.branch)
    && (if e.op == STOP then e.crash <= 3 else e.crash == 0)
    && (EPOCHED_DELEGATE <= e.op <= EPOCHED_ACCEPT || (e.epoch == 0 && e.generation == 0))
  }

  /** An event that the event type can hold. */
  predicate IsEvent(e: Event) {
    && e.step < U64 && e.session < U64 && e.sender < U64 && e.receiver < U64 && e.schema < U64 && e.payload < U64
    && e.epoch < U64 && e.generation < U64 && e.branch < 256 && Checked(e)
  }

  function Words(n: nat): (r: seq<nat>)
    ensures |r| == n && forall i :: 0 <= i < n ==> r[i] == 8
  {
    if n == 0 then [] else [8] + Words(n - 1)
  }

  /** The four control bytes of a record and its padding. */
  const PLAIN_SIZES: seq<nat> := [1, 1, 1, 1, 4]

  /** The sizes of the fields of a record: eight words, and the rest. */
  const RECORD_SIZES: seq<nat> := Words(8) + PLAIN_SIZES

  function FieldsOf(e: Event): (r: seq<nat>)
    ensures |r| == |RECORD_SIZES|
  {
    [e.step, e.session, e.sender, e.receiver, e.schema, e.payload, e.epoch, e.generation, e.op, e.branch, e.reason, e.crash, 0]
  }

  function EventOf(f: seq<nat>): Event
    requires |f| == |RECORD_SIZES|
  {
    Event(f[0], f[1], f[2], f[3], f[4], f[5], f[6], f[7], f[8], f[9], f[10], f[11])
  }

  lemma RecordSize()
    ensures Sum(RECORD_SIZES) == RECORD_BYTES
  {
    SumOfWords(8);
    SumConcat(Words(8), PLAIN_SIZES);
    SumFrom(PLAIN_SIZES, 4);
    SumFrom(PLAIN_SIZES, 3);
    SumFrom(PLAIN_SIZES, 2);
    SumFrom(PLAIN_SIZES, 1);
    SumFrom(PLAIN_SIZES, 0);
    assert PLAIN_SIZES[0..] == PLAIN_SIZES && PLAIN_SIZES[5..] == [];
  }

  lemma {:induction false} SumOfWords(n: nat)
    ensures Sum(Words(n)) == 8 * n
  {
    if n > 0 {
      SumOfWords(n - 1);
      assert Words(n)[1..] == Words(n - 1);
    }
  }

  lemma {:induction false} SumConcat(a: seq<nat>, b: seq<nat>)
    ensures Sum(a + b) == Sum(a) + Sum(b)
  {
    if a == [] {
      assert a + b == b;
    } else {
      SumConcat(a[1..], b);
      assert (a + b)[1..] == a[1..] + b;
    }
  }

  lemma SumFrom(s: seq<nat>, i: nat)
    requires i < |s|
    ensures Sum(s[i..]) == s[i] + Sum(s[i + 1..])
  {
    assert s[i..][1..] == s[i + 1..];
  }

  function EncodeEvent(e: Event): (r: Bytes)
    ensures |r| == RECORD_BYTES
  {
    RecordSize();
    Pack(FieldsOf(e), RECORD_SIZES)
  }

  /** The event of a record.  A record that is short, or has a byte out of its range, is none. */
  function DecodeEvent(bytes: Bytes): Option<Event> {
    if |bytes| < RECORD_BYTES then None
    else
      RecordSize();
      var f := Unpack(bytes[..RECORD_BYTES], RECORD_SIZES);
      var e := EventOf(f);
      if Checked(e) && f[12] == 0 then Some(e) else None
  }

  lemma Limits()
    ensures Limit(1) == 256 && Limit(2) == 0x1_0000 && Limit(4) == 0x1_0000_0000 && Limit(8) == U64
  {
    assert Limit(3) == 0x100_0000 && Limit(5) == 0x100_0000_0000 && Limit(6) == 0x1_0000_0000_0000;
  }

  /** An event reads back from its record. */
  lemma EventReads(e: Event)
    requires IsEvent(e)
    ensures DecodeEvent(EncodeEvent(e)) == Some(e)
  {
    RecordSize();
    FieldsFit(e);
    PackReads(FieldsOf(e), RECORD_SIZES);
    assert EncodeEvent(e)[..RECORD_BYTES] == EncodeEvent(e);
    FieldsBack(e);
  }

  lemma FieldsFit(e: Event)
    requires IsEvent(e)
    ensures Sized(FieldsOf(e), RECORD_SIZES)
  {
    Limits();
  }

  lemma FieldsBack(e: Event)
    ensures EventOf(FieldsOf(e)) == e && FieldsOf(e)[12] == 0
  {
  }

  /** A record that reads as an event is the record of that event, and of no other. */
  lemma RecordWrites(bytes: Bytes)
    requires |bytes| == RECORD_BYTES && DecodeEvent(bytes).Some?
    ensures IsEvent(DecodeEvent(bytes).value) && EncodeEvent(DecodeEvent(bytes).value) == bytes
  {
    RecordSize();
    assert bytes[..RECORD_BYTES] == bytes;
    UnpackWrites(bytes, RECORD_SIZES);
    FieldsForth(Unpack(bytes, RECORD_SIZES));
  }

  lemma FieldsForth(f: seq<nat>)
    requires Sized(f, RECORD_SIZES) && f[12] == 0 && Checked(EventOf(f))
    ensures IsEvent(EventOf(f)) && FieldsOf(EventOf(f)) == f
  {
    Limits();
  }

  // ----------------------------------------------------------- entry files

  const MAGIC := 0x4445_4643
  const VERSION := 1
  const CARDINALITY := 6
  const HEADER_BYTES := 32
  const NO_HASH := 0xFFFF_FFFF_FFFF_FFFF

  /** An entry file opened: the two hashes of its header, and its payload. */
  datatype View = View(hash: nat, row: nat, payload: Bytes)

  /** magic, version, cardinality, the two hashes, the size of the payload, and the reserved word. */
  const HEADER_SIZES: seq<nat> := [4, 2, 2, 8, 8, 4, 4]

  lemma HeaderSize()
    ensures Sum(HEADER_SIZES) == HEADER_BYTES
  {
    SumFrom(HEADER_SIZES, 6);
    SumFrom(HEADER_SIZES, 5);
    SumFrom(HEADER_SIZES, 4);
    SumFrom(HEADER_SIZES, 3);
    SumFrom(HEADER_SIZES, 2);
    SumFrom(HEADER_SIZES, 1);
    SumFrom(HEADER_SIZES, 0);
    assert HEADER_SIZES[0..] == HEADER_SIZES && HEADER_SIZES[7..] == [];
  }

  /** The key of an entry is neither zero nor the sentinel. */
  predicate IsKey(hash: nat, row: nat) {
    !(hash == 0 && row == 0) && !(hash == NO_HASH && row == NO_HASH)
  }

  function Header(v: View): (r: Bytes)
    ensures |r| == HEADER_BYTES
  {
    HeaderSize();
    Pack([MAGIC, VERSION, CARDINALITY, v.hash, v.row, |v.payload|, 0], HEADER_SIZES)
  }

  /** The file of an entry.  A key that is no key, or a payload of 4 GiB or more, is refused. */
  function Serialize(v: View): Option<Bytes> {
    if !IsKey(v.hash, v.row) || |v.payload| >= 0x1_0000_0000 then None else Some(Header(v) + v.payload)
  }

  /** The entry of a file, with the cardinality that the reader knows.  Bytes past the payload are not looked at. */
  function Deserialize(bytes: Bytes): Option<View> {
    if |bytes| < HEADER_BYTES then None
    else
      HeaderSize();
      var f := Unpack(bytes[..HEADER_BYTES], HEADER_SIZES);
      if f[0] != MAGIC || f[1] != VERSION || f[6] != 0 || f[2] > CARDINALITY || !IsKey(f[3], f[4]) then None
      else if f[5] > |bytes| - HEADER_BYTES then None
      else Some(View(f[3], f[4], bytes[HEADER_BYTES..HEADER_BYTES + f[5]]))
  }

  /** An entry reads back from its file. */
  lemma EntryReads(v: View)
    requires v.hash < U64 && v.row < U64 && Serialize(v).Some?
    ensures |Serialize(v).value| == HEADER_BYTES + |v.payload| && Deserialize(Serialize(v).value) == Some(v)
  {
    Limits();
    HeaderSize();
    var fields := [MAGIC, VERSION, CARDINALITY, v.hash, v.row, |v.payload|, 0];
    PackReads(fields, HEADER_SIZES);
    var bytes := Header(v) + v.payload;
    assert bytes[..HEADER_BYTES] == Header(v) && bytes[HEADER_BYTES..HEADER_BYTES + |v.payload|] == v.payload;
  }

  // -------------------------------------------------------------- the hash

  function Absorb(h: bv64, bytes: Bytes): bv64 {
    if bytes == [] then h
    else (Absorb(h, bytes[..|bytes| - 1]) ^ (bytes[|bytes| - 1] as bv64)) * 0x100_0000_01b3
  }

  function Finish(h: bv64): bv64 {
    var a := (h ^ (h >> 33)) * 0xff51_afd7_ed55_8ccd;
    var b := (a ^ (a >> 33)) * 0xc4ce_b9fe_1a85_ec53;
    b ^ (b >> 33)
  }

  /** The hash of a payload, on 64 bits.  It is neither zero nor the sentinel. */
  function BatchHash(bytes: Bytes): (r: nat)
    ensures 0 < r < NO_HASH
  {
    var seed: bv64 := 0xcbf2_9ce4_8422_2325 ^ 0x5345_5353_494f_4e45 ^ ((|bytes| % U64) as bv64);
    var h := Finish(Absorb(seed, bytes)) as nat;
    if h == 0 then 0x5345_5353_494f_4e45 else if h == NO_HASH then NO_HASH - 1 else h
  }

  /** The hash of no bytes. */
  lemma EmptyHash()
    ensures BatchHash([]) == 0x35c3_cb3b_6b06_b0e2
  {
  }
}
