/**
 * The wire format of a transaction (tools/solana_sigverify_mvp.py and its Rust twin): compact-u16
 * counts, fixed-size chunks, counted byte strings. Parsing and flattening are inverse to each other
 * on exactly the inputs the parser accepts.
 */
module TransactionFormat {

  datatype Label = SignatureLabel | AccountKeyLabel | BlockhashLabel
    | ProgramIdLabel | AccountIndicesLabel | InstructionDataLabel
    | LookupKeyLabel | WritableIndicesLabel | ReadonlyIndicesLabel

  datatype ParseError = TruncatedCompact | CompactOverflow | CompactTooLong | Truncated(what: Label)
    | MissingMessage | UnsupportedVersion(version: nat) | TruncatedHeader | TrailingBytes
    | SignatureCountMismatch(signatures: nat, required: nat) | NotEnoughKeys

  /** A parsed item and the bytes after it. */
  datatype Item<T> = Item(value: T, rest: seq<nat>)

  datatype Parsed<T> = Good(item: Item<T>) | Bad(error: ParseError) {
    predicate IsFailure() {
      Bad?
    }

    function PropagateFailure<U>(): Parsed<U>
      requires Bad?
    {
      Bad(error)
    }

    function Extract(): Item<T>
      requires Good?
    {
      item
    }
  }

  // ----- compact-u16 -----

  /** A count as it stands in the input: any encoding, minimal or not. */
  datatype Count = Count(raw: seq<nat>, value: nat)

  /** Up to `left` bytes of seven bits each, least significant first; the last one has its top bit clear. */
  function Septets(s: seq<nat>, left: nat, weight: nat, value: nat): Parsed<nat>
    decreases left
  {
    if left == 0 then Bad(CompactTooLong)
    else if s == [] then Bad(TruncatedCompact)
    else
      var v := value + s[0] % 128 * weight;
      if s[0] < 128 then (if v > 0xFFFF then Bad(CompactOverflow) else Good(Item(v, s[1..])))
      else Septets(s[1..], left - 1, weight * 128, v)
  }

  function CountOf(s: seq<nat>): Parsed<Count> {
    var n :- Septets(s, 3, 1, 0);
    Good(Item(Count(if |n.rest| <= |s| then s[..|s| - |n.rest|] else [], n.value), n.rest))
  }

  predicate IsCount(c: Count) {
    Septets(c.raw, 3, 1, 0) == Good(Item(c.value, []))
  }

  /** The encoding that encode_compact_u16 produces. */
  function Compact(value: nat): seq<nat> {
    if value < 128 then [value] else [value % 128 + 128] + Compact(value / 128)
  }

  /** Decoding ignores whatever follows, and returns it. */
  lemma {:induction false} SeptetsExtend(raw: seq<nat>, rest: seq<nat>, left: nat, weight: nat, value: nat, v: nat)
    requires Septets(raw, left, weight, value) == Good(Item(v, []))
    ensures Septets(raw + rest, left, weight, value) == Good(Item(v, rest))
    decreases left
  {
    assert (raw + rest)[1..] == raw[1..] + rest;
    if raw[0] < 128 {
      assert raw[1..] == [];
      assert (raw + rest)[1..] == rest;
    } else {
      SeptetsExtend(raw[1..], rest, left - 1, weight * 128, value + raw[0] % 128 * weight, v);
    }
  }

  /** What is decoded is a prefix of the input, which decodes alone to the same value. */
  lemma {:induction false} SeptetsSplit(s: seq<nat>, left: nat, weight: nat, value: nat)
    requires Septets(s, left, weight, value).Good?
    ensures var n := Septets(s, left, weight, value).item;
      && |n.rest| < |s| && s == s[..|s| - |n.rest|] + n.rest
      && Septets(s[..|s| - |n.rest|], left, weight, value) == Good(Item(n.value, []))
    decreases left
  {
    var rest := Septets(s, left, weight, value).item.rest;
    if s[0] < 128 {
      assert s[..1] == [s[0]] && |s| - |rest| == 1;
    } else {
      SeptetsSplit(s[1..], left - 1, weight * 128, value + s[0] % 128 * weight);
      var k := |s[1..]| - |rest|;
      assert s[..k + 1][1..] == s[1..][..k];
    }
  }

  lemma CountExtends(c: Count, rest: seq<nat>)
    requires IsCount(c)
    ensures CountOf(c.raw + rest) == Good(Item(c, rest))
  {
    SeptetsExtend(c.raw, rest, 3, 1, 0, c.value);
    assert (c.raw + rest)[..|c.raw|] == c.raw;
  }

  lemma CountSplits(s: seq<nat>)
    requires CountOf(s).Good?
    ensures var c := CountOf(s).item; IsCount(c.value) && s == c.value.raw + c.rest
  {
    SeptetsSplit(s, 3, 1, 0);
  }

  /** encode_compact_u16 followed by decode_compact_u16 is the identity on 16-bit values. */
  lemma CompactRoundTrip(value: nat)
    requires value <= 0xFFFF
    ensures IsCount(Count(Compact(value), value)) && 1 <= |Compact(value)| <= 3
  {
    var raw := Compact(value);
    var v1, v2 := value / 128, value / 128 / 128;
    if value < 128 {
      assert raw == [value];
    } else if v1 < 128 {
      assert raw == [value % 128 + 128] + [v1];
      assert raw[1..] == [v1];
    } else {
      assert Compact(v1) == [v1 % 128 + 128] + Compact(v2);
      assert raw == [value % 128 + 128, v1 % 128 + 128, v2];
      assert raw[1..] == [v1 % 128 + 128, v2] && raw[1..][1..] == [v2];
    }
  }

  // ----- fixed and counted bytes -----

  function Take(s: seq<nat>, n: nat, what: Label): Parsed<seq<nat>> {
    if n > |s| then Bad(Truncated(what)) else Good(Item(s[..n], s[n..]))
  }

  lemma TakeExtends(bytes: seq<nat>, rest: seq<nat>, what: Label)
    ensures Take(bytes + rest, |bytes|, what) == Good(Item(bytes, rest))
  {
  }

  lemma TakeSplits(s: seq<nat>, n: nat, what: Label)
    requires Take(s, n, what).Good?
    ensures var t := Take(s, n, what).item; |t.value| == n && s == t.value + t.rest
  {
  }

  function ChunksOf(s: seq<nat>, size: nat, n: nat, what: Label): Parsed<seq<seq<nat>>>
    decreases n
  {
    if n == 0 then Good(Item([], s))
    else
      var chunk :- Take(s, size, what);
      var more :- ChunksOf(chunk.rest, size, n - 1, what);
      Good(Item([chunk.value] + more.value, more.rest))
  }

  function FlattenChunks(chunks: seq<seq<nat>>): seq<nat> {
    if chunks == [] then [] else chunks[0] + FlattenChunks(chunks[1..])
  }

  ghost predicate AreChunks(chunks: seq<seq<nat>>, size: nat) {
    forall i :: 0 <= i < |chunks| ==> |chunks[i]| == size
  }

  lemma {:induction false} ChunksExtend(chunks: seq<seq<nat>>, size: nat, rest: seq<nat>, what: Label)
    requires AreChunks(chunks, size)
    ensures ChunksOf(FlattenChunks(chunks) + rest, size, |chunks|, what) == Good(Item(chunks, rest))
  {
    if chunks == [] {
      assert FlattenChunks(chunks) + rest == rest;
    } else {
      var after := FlattenChunks(chunks[1..]) + rest;
      assert FlattenChunks(chunks) + rest == chunks[0] + after;
      TakeExtends(chunks[0], after, what);
      ChunksExtend(chunks[1..], size, rest, what);
      assert chunks == [chunks[0]] + chunks[1..];
    }
  }

  lemma NoChunks(size: nat)
    ensures AreChunks([], size) && FlattenChunks([]) == []
  {
  }

  lemma ConsChunks(chunk: seq<nat>, chunks: seq<seq<nat>>, size: nat)
    requires |chunk| == size && AreChunks(chunks, size)
    ensures AreChunks([chunk] + chunks, size) && FlattenChunks([chunk] + chunks) == chunk + FlattenChunks(chunks)
  {
    assert ([chunk] + chunks)[1..] == chunks;
  }

  lemma {:induction false} ChunksSplit(s: seq<nat>, size: nat, n: nat, what: Label)
    requires ChunksOf(s, size, n, what).Good?
    ensures var c := ChunksOf(s, size, n, what).item;
      |c.value| == n && AreChunks(c.value, size) && s == FlattenChunks(c.value) + c.rest
    decreases n
  {
    hide Take, AreChunks, FlattenChunks;
    if n == 0 {
      NoChunks(size);
    } else {
      var chunk := Take(s, size, what).item;
      TakeSplits(s, size, what);
      ChunksSplit(chunk.rest, size, n - 1, what);
      var more := ChunksOf(chunk.rest, size, n - 1, what).item;
      ConsChunks(chunk.value, more.value, size);
      assert s == chunk.value + (FlattenChunks(more.value) + more.rest);
    }
  }

  // ----- instructions and lookups -----

  /** Both kinds of entry are a fixed head and two counted byte strings. */
  datatype Kind = InstructionKind | LookupKind

  datatype Entry = Entry(head: seq<nat>, firstCount: Count, first: seq<nat>, secondCount: Count, second: seq<nat>)

  function HeadSize(k: Kind): nat {
    if k == InstructionKind then 1 else 32
  }

  function HeadLabel(k: Kind): Label {
    if k == InstructionKind then ProgramIdLabel else LookupKeyLabel
  }

  function FirstLabel(k: Kind): Label {
    if k == InstructionKind then AccountIndicesLabel else WritableIndicesLabel
  }

  function SecondLabel(k: Kind): Label {
    if k == InstructionKind then InstructionDataLabel else ReadonlyIndicesLabel
  }

  function EntryOf(s: seq<nat>, k: Kind): Parsed<Entry> {
    var head :- Take(s, HeadSize(k), HeadLabel(k));
    var firstCount :- CountOf(head.rest);
    var first :- Take(firstCount.rest, firstCount.value.value, FirstLabel(k));
    var secondCount :- CountOf(first.rest);
    var second :- Take(secondCount.rest, secondCount.value.value, SecondLabel(k));
    Good(Item(Entry(head.value, firstCount.value, first.value, secondCount.value, second.value), second.rest))
  }

  function FlattenEntry(e: Entry): seq<nat> {
    e.head + (e.firstCount.raw + (e.first + (e.secondCount.raw + e.second)))
  }

  predicate IsEntry(e: Entry, k: Kind) {
    && |e.head| == HeadSize(k) && IsCount(e.firstCount) && |e.first| == e.firstCount.value
    && IsCount(e.secondCount) && |e.second| == e.secondCount.value
  }

  lemma EntryExtends(e: Entry, k: Kind, rest: seq<nat>)
    requires IsEntry(e, k)
    ensures EntryOf(FlattenEntry(e) + rest, k) == Good(Item(e, rest))
  {
    hide CountOf, IsCount, Take;
    var r4 := e.second + rest;
    var r3 := e.secondCount.raw + r4;
    var r2 := e.first + r3;
    var r1 := e.firstCount.raw + r2;
    FiveParts(e.head, e.firstCount.raw, e.first, e.secondCount.raw, e.second, rest);
    TakeExtends(e.head, r1, HeadLabel(k));
    CountExtends(e.firstCount, r2);
    TakeExtends(e.first, r3, FirstLabel(k));
    CountExtends(e.secondCount, r4);
    TakeExtends(e.second, rest, SecondLabel(k));
  }

  lemma FiveParts(a: seq<nat>, b: seq<nat>, c: seq<nat>, d: seq<nat>, e: seq<nat>, rest: seq<nat>)
    ensures a + (b + (c + (d + e))) + rest == a + (b + (c + (d + (e + rest))))
  {
  }

  lemma EntrySplits(s: seq<nat>, k: Kind)
    requires EntryOf(s, k).Good?
    ensures var e := EntryOf(s, k).item; IsEntry(e.value, k) && s == FlattenEntry(e.value) + e.rest
  {
    hide CountOf, IsCount;
    var head := Take(s, HeadSize(k), HeadLabel(k)).item;
    var firstCount := CountOf(head.rest).item;
    var first := Take(firstCount.rest, firstCount.value.value, FirstLabel(k)).item;
    var secondCount := CountOf(first.rest).item;
    var second := Take(secondCount.rest, secondCount.value.value, SecondLabel(k)).item;
    CountSplits(head.rest);
    CountSplits(first.rest);
    FiveParts(head.value, firstCount.value.raw, first.value, secondCount.value.raw, second.value, second.rest);
  }

  function EntriesOf(s: seq<nat>, k: Kind, n: nat): Parsed<seq<Entry>>
    decreases n
  {
    if n == 0 then Good(Item([], s))
    else
      var e :- EntryOf(s, k);
      var more :- EntriesOf(e.rest, k, n - 1);
      Good(Item([e.value] + more.value, more.rest))
  }

  function FlattenEntries(entries: seq<Entry>): seq<nat> {
    if entries == [] then [] else FlattenEntry(entries[0]) + FlattenEntries(entries[1..])
  }

  ghost predicate AreEntries(entries: seq<Entry>, k: Kind) {
    forall i :: 0 <= i < |entries| ==> IsEntry(entries[i], k)
  }

  lemma {:induction false} EntriesExtend(entries: seq<Entry>, k: Kind, rest: seq<nat>)
    requires AreEntries(entries, k)
    ensures EntriesOf(FlattenEntries(entries) + rest, k, |entries|) == Good(Item(entries, rest))
  {
    hide EntryOf, FlattenEntry, IsEntry;
    if entries == [] {
      assert FlattenEntries(entries) + rest == rest;
    } else {
      var after := FlattenEntries(entries[1..]) + rest;
      assert FlattenEntries(entries) + rest == FlattenEntry(entries[0]) + after;
      EntryExtends(entries[0], k, after);
      EntriesExtend(entries[1..], k, rest);
      assert entries == [entries[0]] + entries[1..];
    }
  }

  lemma {:induction false} EntriesSplit(s: seq<nat>, k: Kind, n: nat)
    requires EntriesOf(s, k, n).Good?
    ensures var es := EntriesOf(s, k, n).item;
      |es.value| == n && AreEntries(es.value, k) && s == FlattenEntries(es.value) + es.rest
    decreases n
  {
    hide EntryOf, FlattenEntry, IsEntry;
    if n > 0 {
      EntrySplits(s, k);
      var e := EntryOf(s, k).item;
      EntriesSplit(e.rest, k, n - 1);
      var more := EntriesOf(e.rest, k, n - 1).item;
      assert ([e.value] + more.value)[1..] == more.value;
      assert s == FlattenEntry(e.value) + (FlattenEntries(more.value) + more.rest);
    }
  }

  // ----- messages -----

  /** A legacy message has no version byte and no lookups. */
  datatype Lookups = Legacy | V0(count: Count, entries: seq<Entry>)

  datatype Message = Message(required: nat, readonlySigned: nat, readonlyUnsigned: nat, keyCount: Count, keys: seq<seq<nat>>,
                             blockhash: seq<nat>, instructionCount: Count, instructions: seq<Entry>, lookups: Lookups)

  function LookupsOf(s: seq<nat>, v0: bool): Parsed<Lookups> {
    if !v0 then Good(Item(Legacy, s))
    else
      var count :- CountOf(s);
      var entries :- EntriesOf(count.rest, LookupKind, count.value.value);
      Good(Item(V0(count.value, entries.value), entries.rest))
  }

  /** Everything after the version byte. */
  function BodyOf(s: seq<nat>, v0: bool): Parsed<Message> {
    if |s| < 3 then Bad(TruncatedHeader)
    else
      var keyCount :- CountOf(s[3..]);
      var keys :- ChunksOf(keyCount.rest, 32, keyCount.value.value, AccountKeyLabel);
      var blockhash :- Take(keys.rest, 32, BlockhashLabel);
      var instructionCount :- CountOf(blockhash.rest);
      var instructions :- EntriesOf(instructionCount.rest, InstructionKind, instructionCount.value.value);
      var lookups :- LookupsOf(instructions.rest, v0);
      if lookups.rest != [] then Bad(TrailingBytes)
      else
        Good(Item(Message(s[0], s[1], s[2], keyCount.value, keys.value, blockhash.value,
          instructionCount.value, instructions.value, lookups.value), []))
  }

  function MessageOf(s: seq<nat>): Parsed<Message> {
    if s == [] then Bad(MissingMessage)
    else if s[0] >= 128 then
      (if s[0] % 128 != 0 then Bad(UnsupportedVersion(s[0] % 128)) else BodyOf(s[1..], true))
    else BodyOf(s, false)
  }

  function FlattenLookups(l: Lookups): seq<nat> {
    match l
    case Legacy => []
    case V0(count, entries) => count.raw + FlattenEntries(entries)
  }

  function FlattenBody(m: Message): seq<nat> {
    [m.required, m.readonlySigned, m.readonlyUnsigned] + (m.keyCount.raw + (FlattenChunks(m.keys)
      + (m.blockhash + (m.instructionCount.raw + (FlattenEntries(m.instructions) + FlattenLookups(m.lookups))))))
  }

  function FlattenMessage(m: Message): seq<nat> {
    if m.lookups.V0? then [128] + FlattenBody(m) else FlattenBody(m)
  }

  ghost predicate AreLookups(l: Lookups) {
    l.V0? ==> IsCount(l.count) && |l.entries| == l.count.value && AreEntries(l.entries, LookupKind)
  }

  ghost predicate IsBody(m: Message) {
    && IsCount(m.keyCount) && |m.keys| == m.keyCount.value && AreChunks(m.keys, 32) && |m.blockhash| == 32
    && IsCount(m.instructionCount) && |m.instructions| == m.instructionCount.value
    && AreEntries(m.instructions, InstructionKind)
    && AreLookups(m.lookups)
  }

  /** A message the format can express: its first byte must not read as a version. */
  ghost predicate IsMessage(m: Message) {
    IsBody(m) && (m.lookups.Legacy? ==> m.required < 128)
  }

  lemma LookupsExtend(l: Lookups)
    requires AreLookups(l)
    ensures LookupsOf(FlattenLookups(l), l.V0?) == Good(Item(l, []))
  {
    hide CountOf, IsCount, EntriesOf, FlattenEntries, AreEntries;
    if l.V0? {
      CountExtends(l.count, FlattenEntries(l.entries));
      EntriesExtend(l.entries, LookupKind, []);
      assert FlattenEntries(l.entries) + [] == FlattenEntries(l.entries);
    }
  }

  lemma BodyParses(m: Message)
    requires IsBody(m)
    ensures BodyOf(FlattenBody(m), m.lookups.V0?) == Good(Item(m, []))
  {
    hide CountOf, IsCount, EntriesOf, FlattenEntries, AreEntries, ChunksOf, FlattenChunks, AreChunks, Take, LookupsOf;
    hide FlattenLookups, AreLookups;
    var r6 := FlattenLookups(m.lookups);
    var r5 := FlattenEntries(m.instructions) + r6;
    var r4 := m.instructionCount.raw + r5;
    var r3 := m.blockhash + r4;
    var r2 := FlattenChunks(m.keys) + r3;
    var r1 := m.keyCount.raw + r2;
    var s := FlattenBody(m);
    assert s == [m.required, m.readonlySigned, m.readonlyUnsigned] + r1 && s[3..] == r1;
    CountExtends(m.keyCount, r2);
    ChunksExtend(m.keys, 32, r3, AccountKeyLabel);
    TakeExtends(m.blockhash, r4, BlockhashLabel);
    CountExtends(m.instructionCount, r5);
    EntriesExtend(m.instructions, InstructionKind, r6);
    LookupsExtend(m.lookups);
  }

  lemma LookupsSplit(s: seq<nat>, v0: bool)
    requires LookupsOf(s, v0).Good?
    ensures var l := LookupsOf(s, v0).item;
      AreLookups(l.value) && (l.value.V0? <==> v0) && s == FlattenLookups(l.value) + l.rest
  {
    hide CountOf, IsCount, EntriesOf, FlattenEntries, AreEntries;
    if v0 {
      CountSplits(s);
      var count := CountOf(s).item;
      EntriesSplit(count.rest, LookupKind, count.value.value);
      var entries := EntriesOf(count.rest, LookupKind, count.value.value).item;
      assert s == count.value.raw + FlattenEntries(entries.value) + entries.rest;
    }
  }

  lemma BodySplits(s: seq<nat>, v0: bool)
    requires BodyOf(s, v0).Good?
    ensures var m := BodyOf(s, v0).item;
      m.rest == [] && IsBody(m.value) && (m.value.lookups.V0? <==> v0) && s == FlattenBody(m.value) && m.value.required == s[0]
  {
    hide CountOf, IsCount, EntriesOf, FlattenEntries, AreEntries, ChunksOf, FlattenChunks, AreChunks, LookupsOf;
    hide FlattenLookups, AreLookups;
    var keyCount := CountOf(s[3..]).item;
    CountSplits(s[3..]);
    var keys := ChunksOf(keyCount.rest, 32, keyCount.value.value, AccountKeyLabel).item;
    ChunksSplit(keyCount.rest, 32, keyCount.value.value, AccountKeyLabel);
    var blockhash := Take(keys.rest, 32, BlockhashLabel).item;
    assert keys.rest == blockhash.value + blockhash.rest && |blockhash.value| == 32;
    hide Take;
    var instructionCount := CountOf(blockhash.rest).item;
    CountSplits(blockhash.rest);
    var instructions := EntriesOf(instructionCount.rest, InstructionKind, instructionCount.value.value).item;
    EntriesSplit(instructionCount.rest, InstructionKind, instructionCount.value.value);
    var lookups := LookupsOf(instructions.rest, v0).item;
    LookupsSplit(instructions.rest, v0);
    assert instructions.rest == FlattenLookups(lookups.value);
    assert s == [s[0], s[1], s[2]] + s[3..];
  }

  // ----- transactions -----

  datatype Transaction = Transaction(signatureCount: Count, signatures: seq<seq<nat>>, messageBytes: seq<nat>, message: Message)

  function TransactionOf(data: seq<nat>): Parsed<Transaction> {
    var count :- CountOf(data);
    var signatures :- ChunksOf(count.rest, 64, count.value.value, SignatureLabel);
    var message :- MessageOf(signatures.rest);
    Good(Item(Transaction(count.value, signatures.value, signatures.rest, message.value), []))
  }

  function Flatten(t: Transaction): seq<nat> {
    t.signatureCount.raw + (FlattenChunks(t.signatures) + t.messageBytes)
  }

  ghost predicate IsTransaction(t: Transaction) {
    && IsCount(t.signatureCount) && |t.signatures| == t.signatureCount.value && AreChunks(t.signatures, 64)
    && IsMessage(t.message) && t.messageBytes == FlattenMessage(t.message)
  }

  lemma MessageParses(m: Message)
    requires IsMessage(m)
    ensures MessageOf(FlattenMessage(m)) == Good(Item(m, []))
  {
    BodyParses(m);
    hide BodyOf, IsBody;
    var s := FlattenMessage(m);
    if m.lookups.V0? {
      assert s[1..] == FlattenBody(m);
    }
  }

  ghost predicate AreBytes(s: seq<nat>) {
    forall i :: 0 <= i < |s| ==> s[i] < 256
  }

  lemma MessageSplits(s: seq<nat>)
    requires AreBytes(s) && MessageOf(s).Good?
    ensures var m := MessageOf(s).item; m.rest == [] && IsMessage(m.value) && s == FlattenMessage(m.value)
  {
    hide BodyOf, IsBody, FlattenBody;
    if s[0] >= 128 {
      BodySplits(s[1..], true);
      assert s == [s[0]] + s[1..];
    } else {
      BodySplits(s, false);
    }
  }

  /** Every transaction the format can express is parsed back, whatever encodings its counts use. */
  lemma FlattenParses(t: Transaction)
    requires IsTransaction(t)
    ensures TransactionOf(Flatten(t)) == Good(Item(t, []))
  {
    hide CountOf, IsCount, ChunksOf, FlattenChunks, AreChunks, MessageOf, IsMessage, FlattenMessage;
    CountExtends(t.signatureCount, FlattenChunks(t.signatures) + t.messageBytes);
    ChunksExtend(t.signatures, 64, t.messageBytes, SignatureLabel);
    MessageParses(t.message);
  }

  /** Every accepted input is the flattening of what it parses to: nothing is skipped, lost or left over. */
  lemma ParseFlattens(data: seq<nat>)
    requires AreBytes(data) && TransactionOf(data).Good?
    ensures var t := TransactionOf(data).item.value; IsTransaction(t) && Flatten(t) == data
  {
    hide CountOf, IsCount, ChunksOf, FlattenChunks, AreChunks, MessageOf, IsMessage, FlattenMessage, AreBytes;
    var count := CountOf(data).item;
    var signatures := ChunksOf(count.rest, 64, count.value.value, SignatureLabel).item;
    CountSplits(data);
    ChunksSplit(count.rest, 64, count.value.value, SignatureLabel);
    ThreeParts(data, count.value.raw, FlattenChunks(signatures.value), signatures.rest);
    MessageSplits(signatures.rest);
  }

  lemma ThreeParts(data: seq<nat>, a: seq<nat>, b: seq<nat>, c: seq<nat>)
    requires data == a + (b + c) && AreBytes(data)
    ensures AreBytes(c)
  {
    assert c == data[|a| + |b|..];
  }
}
