/**
 * The transaction parser of the host tools, in Python (tools/solana_sigverify_mvp.py) and in Rust
 * (tools/kv260_sigv_daemon/src/parser.rs): the loops over offsets, and where the two differ.
 */
module Parser {
  import opened TransactionFormat

  datatype VerificationJob = VerificationJob(index: nat, pubkey: seq<nat>, signature: seq<nat>)

  datatype ParsedTransaction = ParsedTransaction(messageBytes: seq<nat>, v0: bool, required: nat, jobs: seq<VerificationJob>)

  /** Rust can also panic, by indexing past the keys. */
  datatype Outcome = Accepted(parsed: ParsedTransaction) | Rejected(error: ParseError) | Panicked

  // ----- what the two parsers decide -----

  /** Job i pairs key i with signature i. */
  function Jobs(keys: seq<seq<nat>>, signatures: seq<seq<nat>>, n: nat): (jobs: seq<VerificationJob>)
    requires n <= |keys| && n <= |signatures|
    ensures |jobs| == n
  {
    seq(n, i requires 0 <= i < n => VerificationJob(i, keys[i], signatures[i]))
  }

  function Python(p: Parsed<Transaction>): Outcome {
    match p
    case Bad(e) => Rejected(e)
    case Good(i) =>
      var t := i.value;
      var n, required := |t.signatures|, t.message.required;
      if n != required then Rejected(SignatureCountMismatch(n, required))
      else if |t.message.keys| < required then Rejected(NotEnoughKeys)
      else Accepted(ParsedTransaction(t.messageBytes, t.message.lookups.V0?, required, Jobs(t.message.keys, t.signatures, required)))
  }

  /** The count is compared as a byte, and every signature takes a key. */
  function Rust(p: Parsed<Transaction>): Outcome {
    match p
    case Bad(e) => Rejected(e)
    case Good(i) =>
      var t := i.value;
      var n, required := |t.signatures|, t.message.required;
      if n % 256 != required then Rejected(SignatureCountMismatch(n, required))
      else if |t.message.keys| < required then Rejected(NotEnoughKeys)
      else if |t.message.keys| < n then Panicked
      else Accepted(ParsedTransaction(t.messageBytes, t.message.lookups.V0?, required, Jobs(t.message.keys, t.signatures, n)))
  }

  /**
   * A transaction with as many signatures as its header requires, and a key for each, is accepted by
   * both parsers, with its exact message bytes and job i made of key i and signature i.
   */
  lemma RoundTrip(t: Transaction)
    requires IsTransaction(t) && |t.signatures| == t.message.required <= |t.message.keys| && t.message.required < 256
    ensures var outcome := Accepted(ParsedTransaction(t.messageBytes, t.message.lookups.V0?, t.message.required,
        Jobs(t.message.keys, t.signatures, t.message.required)));
      Python(TransactionOf(Flatten(t))) == outcome && Rust(TransactionOf(Flatten(t))) == outcome
  {
    hide TransactionOf, Flatten, IsMessage, FlattenMessage;
    FlattenParses(t);
  }

  /** A count as encode_compact_u16 writes it. */
  ghost predicate Encoded(c: Count, n: nat) {
    n <= 0xFFFF && c == Count(Compact(n), n)
  }

  ghost predicate EntriesEncoded(entries: seq<Entry>, k: Kind) {
    forall i :: 0 <= i < |entries| ==>
      && |entries[i].head| == HeadSize(k)
      && Encoded(entries[i].firstCount, |entries[i].first|) && Encoded(entries[i].secondCount, |entries[i].second|)
  }

  /** Every count of the transaction is written by encode_compact_u16. */
  ghost predicate Built(t: Transaction) {
    var m := t.message;
    && Encoded(t.signatureCount, |t.signatures|) && AreChunks(t.signatures, 64) && t.messageBytes == FlattenMessage(m)
    && Encoded(m.keyCount, |m.keys|) && AreChunks(m.keys, 32) && |m.blockhash| == 32
    && Encoded(m.instructionCount, |m.instructions|) && EntriesEncoded(m.instructions, InstructionKind)
    && (m.lookups.V0? ==> Encoded(m.lookups.count, |m.lookups.entries|) && EntriesEncoded(m.lookups.entries, LookupKind))
    && (m.lookups.Legacy? ==> m.required < 128)
  }

  lemma EncodedIsCount(c: Count, n: nat)
    requires Encoded(c, n)
    ensures IsCount(c) && c.value == n
  {
    CompactRoundTrip(n);
  }

  lemma EncodedEntries(entries: seq<Entry>, k: Kind)
    requires EntriesEncoded(entries, k)
    ensures AreEntries(entries, k)
  {
    hide IsCount, Encoded;
    forall i | 0 <= i < |entries| ensures IsEntry(entries[i], k) {
      EncodedIsCount(entries[i].firstCount, |entries[i].first|);
      EncodedIsCount(entries[i].secondCount, |entries[i].second|);
    }
  }

  /** Transactions built with encode_compact_u16, legacy or v0, are transactions of the format. */
  lemma BuiltIsTransaction(t: Transaction)
    requires Built(t)
    ensures IsTransaction(t)
  {
    hide IsCount, Encoded, EntriesEncoded, AreEntries, AreChunks, FlattenMessage;
    var m := t.message;
    EncodedIsCount(t.signatureCount, |t.signatures|);
    EncodedIsCount(m.keyCount, |m.keys|);
    EncodedIsCount(m.instructionCount, |m.instructions|);
    EncodedEntries(m.instructions, InstructionKind);
    if m.lookups.V0? {
      EncodedIsCount(m.lookups.count, |m.lookups.entries|);
      EncodedEntries(m.lookups.entries, LookupKind);
    }
  }

  /** Whatever Python accepts is exactly the flattening of a transaction it has read completely. */
  lemma AcceptedExactly(data: seq<nat>)
    requires AreBytes(data) && Python(TransactionOf(data)).Accepted?
    ensures var t, p := TransactionOf(data).item.value, Python(TransactionOf(data)).parsed;
      && IsTransaction(t) && Flatten(t) == data
      && p.messageBytes == FlattenMessage(t.message) && |p.jobs| == |t.signatures| == t.message.required
      && (forall i :: 0 <= i < |p.jobs| ==> p.jobs[i] == VerificationJob(i, t.message.keys[i], t.signatures[i]))
  {
    hide TransactionOf, Flatten, IsMessage, FlattenMessage;
    ParseFlattens(data);
  }

  /** The parsers differ exactly on more than 255 signatures whose count reads as the required byte. */
  lemma AgreeIff(data: seq<nat>)
    requires AreBytes(data)
    ensures Python(TransactionOf(data)) == Rust(TransactionOf(data)) <==>
      !(TransactionOf(data).Good?
        && var t := TransactionOf(data).item.value; |t.signatures| > 255 && |t.signatures| % 256 == t.message.required)
  {
    hide TransactionOf, Jobs, AreBytes;
    if TransactionOf(data).Good? {
      RequiredIsByte(data);
      SameAsByte(TransactionOf(data).item.value);
    }
  }

  lemma SameAsByte(t: Transaction)
    requires t.message.required < 256
    ensures var p := Good(Item(t, []));
      Python(p) == Rust(p) <==> !(|t.signatures| > 255 && |t.signatures| % 256 == t.message.required)
    ensures forall rest: seq<nat> {:trigger Item(t, rest)} ::
      Python(Good(Item(t, rest))) == Python(Good(Item(t, []))) && Rust(Good(Item(t, rest))) == Rust(Good(Item(t, [])))
  {
    hide Jobs;
    var n, required := |t.signatures|, t.message.required;
    if n <= 255 {
      assert n % 256 == n;
      if n != required {
      } else if |t.message.keys| < required {
      } else {
      }
    } else if n % 256 != required {
    } else if |t.message.keys| < required {
    } else if |t.message.keys| < n {
    } else {
    }
  }

  lemma RequiredIsByte(data: seq<nat>)
    requires AreBytes(data) && TransactionOf(data).Good?
    ensures TransactionOf(data).item.value.message.required < 256
  {
    hide CountOf, ChunksOf, BodyOf, AreBytes, FlattenBody;
    var count := CountOf(data).item;
    var s := ChunksOf(count.rest, 64, count.value.value, SignatureLabel).item;
    CountSplits(data);
    ChunksSplit(count.rest, 64, count.value.value, SignatureLabel);
    ThreeParts(data, count.value.raw, FlattenChunks(s.value), s.rest);
    BytesAt(s.rest);
    if s.rest[0] >= 128 {
      BodySplits(s.rest[1..], true);
      BodyLong(s.rest[1..], true);
    } else {
      BodySplits(s.rest, false);
    }
  }

  lemma BytesAt(s: seq<nat>)
    requires AreBytes(s)
    ensures |s| >= 1 ==> s[0] < 256
    ensures |s| >= 2 ==> s[1] < 256
  {
  }

  lemma BodyLong(s: seq<nat>, v0: bool)
    requires BodyOf(s, v0).Good?
    ensures |s| >= 3
  {
    hide CountOf, ChunksOf, Take, EntriesOf, LookupsOf;
  }

  /** 256 signatures under a header that requires none: Python rejects, Rust indexes past the keys. */
  lemma DisagreementExample()
    ensures var t := Unsigned(256);
      && Python(TransactionOf(Flatten(t))) == Rejected(SignatureCountMismatch(256, 0))
      && Rust(TransactionOf(Flatten(t))) == Panicked
  {
    UnsignedIsTransaction(256);
    FlattenParses(Unsigned(256));
    hide TransactionOf, Flatten;
  }

  /** n zero signatures before a legacy message with no keys, no instructions and nothing required. */
  function Unsigned(n: nat): Transaction {
    var zero := Count(Compact(0), 0);
    var message := Message(0, 0, 0, zero, [], seq(32, _ => 0), zero, [], Legacy);
    Transaction(Count(Compact(n), n), seq(n, _ => seq(64, _ => 0)), FlattenMessage(message), message)
  }

  lemma UnsignedIsTransaction(n: nat)
    requires n <= 0xFFFF
    ensures IsTransaction(Unsigned(n)) && |Unsigned(n).signatures| == n
  {
    CompactRoundTrip(n);
    CompactRoundTrip(0);
    hide IsCount, Compact, FlattenMessage;
  }

  // ----- the parsing methods -----

  /** A value and the offset after it, or an error. */
  datatype At<T> = At(value: T, offset: nat) | Failed(error: ParseError)

  /** The method at an offset did what the format does with the bytes from there on. */
  ghost predicate Matches<T>(data: seq<nat>, r: At<T>, p: Parsed<T>) {
    match p
    case Bad(e) => r == Failed(e)
    case Good(i) => |i.rest| <= |data| && r == At(i.value, |data| - |i.rest|) && data[|data| - |i.rest|..] == i.rest
  }

  method EncodeCompactU16(value: nat) returns (encoded: seq<nat>)
    requires value <= 0xFFFF
    ensures encoded == Compact(value)
  {
    encoded := [];
    var remaining := value;
    var more := true;
    while more
      invariant more ==> encoded + Compact(remaining) == Compact(value)
      invariant !more ==> encoded == Compact(value)
      decreases more, remaining
    {
      var byte := remaining % 128;
      var next := remaining / 128;
      if next != 0 {
        assert Compact(remaining) == [byte + 128] + Compact(next);
        encoded := encoded + [byte + 128];
        remaining := next;
      } else {
        assert Compact(remaining) == [byte];
        encoded := encoded + [byte];
        more := false;
      }
    }
  }

  method DecodeCompactU16(data: seq<nat>, start: nat) returns (r: At<nat>)
    requires start <= |data|
    ensures Matches(data, r, Septets(data[start..], 3, 1, 0))
  {
    var value, weight, offset := 0, 1, start;
    for i := 0 to 3
      invariant start <= offset <= |data|
      invariant Septets(data[offset..], 3 - i, weight, value) == Septets(data[start..], 3, 1, 0)
    {
      if offset >= |data| {
        return Failed(TruncatedCompact);
      }
      assert data[offset..][1..] == data[offset + 1..];
      var byte := data[offset];
      offset := offset + 1;
      value := value + byte % 128 * weight;
      if byte < 128 {
        if value > 0xFFFF {
          return Failed(CompactOverflow);
        }
        return At(value, offset);
      }
      weight := weight * 128;
    }
    return Failed(CompactTooLong);
  }

  method TakeBytes(data: seq<nat>, offset: nat, size: nat, what: Label) returns (r: At<seq<nat>>)
    requires offset <= |data|
    ensures Matches(data, r, Take(data[offset..], size, what))
  {
    var end := offset + size;
    if end > |data| {
      return Failed(Truncated(what));
    }
    assert data[offset..][..size] == data[offset..end] && data[offset..][size..] == data[end..];
    return At(data[offset..end], end);
  }

  /** Only where an item ends matters to the skipping loops. */
  function End<T>(p: Parsed<T>): Parsed<()> {
    match p
    case Bad(e) => Bad(e)
    case Good(i) => Good(Item((), i.rest))
  }

  /** The body of both skipping loops. */
  method SkipEntry(data: seq<nat>, start: nat, k: Kind) returns (r: At<()>)
    requires start <= |data|
    ensures Matches(data, r, End(EntryOf(data[start..], k)))
  {
    hide Septets, Take;
    var head := TakeBytes(data, start, HeadSize(k), HeadLabel(k));
    if head.Failed? {
      return Failed(head.error);
    }
    var firstCount := DecodeCompactU16(data, head.offset);
    if firstCount.Failed? {
      return Failed(firstCount.error);
    }
    var first := TakeBytes(data, firstCount.offset, firstCount.value, FirstLabel(k));
    if first.Failed? {
      return Failed(first.error);
    }
    var secondCount := DecodeCompactU16(data, first.offset);
    if secondCount.Failed? {
      return Failed(secondCount.error);
    }
    var second := TakeBytes(data, secondCount.offset, secondCount.value, SecondLabel(k));
    if second.Failed? {
      return Failed(second.error);
    }
    return At((), second.offset);
  }

  /** A count and its entries. */
  function Section(s: seq<nat>, k: Kind): Parsed<seq<Entry>> {
    var count :- CountOf(s);
    EntriesOf(count.rest, k, count.value.value)
  }

  /** _skip_compiled_instructions and _skip_address_table_lookups. */
  method SkipEntries(data: seq<nat>, start: nat, k: Kind) returns (r: At<()>)
    requires start <= |data|
    ensures Matches(data, r, End(Section(data[start..], k)))
  {
    hide Septets, EntryOf;
    var count := DecodeCompactU16(data, start);
    if count.Failed? {
      return Failed(count.error);
    }
    var offset: nat := count.offset;
    for i := 0 to count.value
      invariant offset <= |data|
      invariant End(EntriesOf(data[offset..], k, count.value - i)) == End(Section(data[start..], k))
    {
      EntriesStep(data[offset..], k, count.value - i);
      var entry := SkipEntry(data, offset, k);
      if entry.Failed? {
        return Failed(entry.error);
      }
      offset := entry.offset;
    }
    return At((), offset);
  }

  lemma EntriesStep(s: seq<nat>, k: Kind, n: nat)
    requires n > 0
    ensures End(EntriesOf(s, k, n)) ==
      match EntryOf(s, k) case Bad(e) => Bad(e) case Good(i) => End(EntriesOf(i.rest, k, n - 1))
  {
    hide EntryOf;
  }

  /** The loops that collect chunks of a fixed size: signatures and account keys. */
  method CollectChunks(data: seq<nat>, start: nat, size: nat, n: nat, what: Label) returns (r: At<seq<seq<nat>>>)
    requires start <= |data|
    ensures Matches(data, r, ChunksOf(data[start..], size, n, what))
  {
    hide Take;
    var chunks: seq<seq<nat>> := [];
    var offset: nat := start;
    PrependNothing(ChunksOf(data[start..], size, n, what));
    for i := 0 to n
      invariant offset <= |data|
      invariant Prepend(chunks, ChunksOf(data[offset..], size, n - i, what)) == ChunksOf(data[start..], size, n, what)
    {
      ChunksStep(chunks, data[offset..], size, n - i, what);
      var chunk := TakeBytes(data, offset, size, what);
      if chunk.Failed? {
        return Failed(chunk.error);
      }
      chunks, offset := chunks + [chunk.value], chunk.offset;
    }
    assert chunks + [] == chunks;
    return At(chunks, offset);
  }

  function Prepend(chunks: seq<seq<nat>>, p: Parsed<seq<seq<nat>>>): Parsed<seq<seq<nat>>> {
    match p
    case Bad(e) => Bad(e)
    case Good(i) => Good(Item(chunks + i.value, i.rest))
  }

  lemma ChunksStep(chunks: seq<seq<nat>>, s: seq<nat>, size: nat, n: nat, what: Label)
    requires n > 0
    ensures Prepend(chunks, ChunksOf(s, size, n, what)) ==
      match Take(s, size, what) case Bad(e) => Bad(e)
        case Good(i) => Prepend(chunks + [i.value], ChunksOf(i.rest, size, n - 1, what))
  {
    hide Take;
    match Take(s, size, what) {
      case Bad(e) =>
      case Good(i) =>
        if ChunksOf(i.rest, size, n - 1, what).Good? {
          var more := ChunksOf(i.rest, size, n - 1, what).item.value;
          assert chunks + ([i.value] + more) == chunks + [i.value] + more;
        }
    }
  }

  lemma PrependNothing(p: Parsed<seq<seq<nat>>>)
    ensures Prepend([], p) == p
  {
    if p.Good? {
      assert [] + p.item.value == p.item.value;
    }
  }

  // ----- messages -----

  /** What the transaction parser needs of a message. */
  datatype Info = Info(v0: bool, required: nat, keys: seq<seq<nat>>)

  function InfoOf(p: Parsed<Message>): Parsed<Info> {
    match p
    case Bad(e) => Bad(e)
    case Good(i) => Good(Item(Info(i.value.lookups.V0?, i.value.required, i.value.keys), i.rest))
  }

  method ParseMessage(message: seq<nat>) returns (r: At<Info>)
    ensures Matches(message, r, InfoOf(MessageOf(message)))
  {
    hide BodyOf;
    if message == [] {
      return Failed(MissingMessage);
    }
    var headerOffset, v0 := 0, false;
    if message[0] >= 128 {
      var version := message[0] % 128;
      if version != 0 {
        return Failed(UnsupportedVersion(version));
      }
      headerOffset, v0 := 1, true;
    }
    assert message[0..] == message;
    r := ParseBody(message, headerOffset, v0);
  }

  method ParseBody(message: seq<nat>, headerOffset: nat, v0: bool) returns (r: At<Info>)
    requires headerOffset <= |message|
    ensures Matches(message, r, InfoOf(BodyOf(message[headerOffset..], v0)))
  {
    hide Septets, ChunksOf, Take, EntriesOf;
    ghost var s := message[headerOffset..];
    if headerOffset + 3 > |message| {
      return Failed(TruncatedHeader);
    }
    var required := message[headerOffset];
    var offset := headerOffset + 3;
    assert s[3..] == message[offset..];
    var keyCount := DecodeCompactU16(message, offset);
    if keyCount.Failed? {
      return Failed(keyCount.error);
    }
    var keys := CollectChunks(message, keyCount.offset, 32, keyCount.value, AccountKeyLabel);
    if keys.Failed? {
      return Failed(keys.error);
    }
    var blockhash := TakeBytes(message, keys.offset, 32, BlockhashLabel);
    if blockhash.Failed? {
      return Failed(blockhash.error);
    }
    BodyAfter(s, v0);
    var end := ParseSections(message, blockhash.offset, v0);
    if end.Failed? {
      return Failed(end.error);
    }
    if end.offset != |message| {
      return Failed(TrailingBytes);
    }
    return At(Info(v0, required, keys.value), end.offset);
  }

  /** Instructions, and in a v0 message the lookups. */
  function Sections(s: seq<nat>, v0: bool): Parsed<()> {
    var instructions :- End(Section(s, InstructionKind));
    if v0 then End(Section(instructions.rest, LookupKind)) else Good(Item((), instructions.rest))
  }

  method ParseSections(message: seq<nat>, start: nat, v0: bool) returns (r: At<()>)
    requires start <= |message|
    ensures Matches(message, r, Sections(message[start..], v0))
  {
    hide Section;
    r := SkipEntries(message, start, InstructionKind);
    if r.At? && v0 {
      r := SkipEntries(message, r.offset, LookupKind);
    }
  }

  /** A message body, seen by where its sections end. */
  lemma BodyAfter(s: seq<nat>, v0: bool)
    requires |s| >= 3 && CountOf(s[3..]).Good?
    ensures var count := CountOf(s[3..]).item;
      var keys := ChunksOf(count.rest, 32, count.value.value, AccountKeyLabel);
      InfoOf(BodyOf(s, v0)) ==
        if keys.Bad? then Bad(keys.error)
        else
          var hash := Take(keys.item.rest, 32, BlockhashLabel);
          if hash.Bad? then Bad(hash.error)
          else
            match Sections(hash.item.rest, v0)
            case Bad(e) => Bad(e)
            case Good(i) => if i.rest != [] then Bad(TrailingBytes) else Good(Item(Info(v0, s[0], keys.item.value), []))
  {
    hide CountOf, ChunksOf, Take, EntriesOf;
    var count := CountOf(s[3..]).item;
    var keys := ChunksOf(count.rest, 32, count.value.value, AccountKeyLabel);
    if keys.Good? {
      var hash := Take(keys.item.rest, 32, BlockhashLabel);
      if hash.Good? {
        SectionsOf(hash.item.rest, v0);
      }
    }
  }

  lemma SectionsOf(s: seq<nat>, v0: bool)
    ensures Sections(s, v0) == match Section(s, InstructionKind)
        case Bad(e) => Bad(e)
        case Good(i) => End(LookupsOf(i.rest, v0))
    ensures LookupsOf(s, v0).Good? ==> LookupsOf(s, v0).item.value.V0? == v0
  {
    hide CountOf, EntriesOf;
    if Section(s, InstructionKind).Good? && v0 {
      var rest := Section(s, InstructionKind).item.rest;
      if CountOf(rest).Good? {
        var count := CountOf(rest).item;
        if EntriesOf(count.rest, LookupKind, count.value.value).Good? {
        }
      }
    }
  }

  // ----- transactions -----

  /** The part both parsers share: counts, signatures, and the message that follows them. */
  datatype Front = Front(signatures: seq<seq<nat>>, messageBytes: seq<nat>, info: Info) | Stopped(error: ParseError)

  ghost predicate FrontOf(f: Front, p: Parsed<Transaction>) {
    match p
    case Bad(e) => f == Stopped(e)
    case Good(i) =>
      var t := i.value;
      f == Front(t.signatures, t.messageBytes, Info(t.message.lookups.V0?, t.message.required, t.message.keys))
  }

  method ParseFront(data: seq<nat>) returns (f: Front)
    ensures FrontOf(f, TransactionOf(data))
  {
    hide Septets, ChunksOf, MessageOf;
    assert data[0..] == data;
    var count := DecodeCompactU16(data, 0);
    if count.Failed? {
      return Stopped(count.error);
    }
    var signatures := CollectChunks(data, count.offset, 64, count.value, SignatureLabel);
    if signatures.Failed? {
      return Stopped(signatures.error);
    }
    var messageBytes := data[signatures.offset..];
    var info := ParseMessage(messageBytes);
    if info.Failed? {
      return Stopped(info.error);
    }
    return Front(signatures.value, messageBytes, info.value);
  }

  method PythonParseTransaction(data: seq<nat>) returns (r: Outcome)
    ensures r == Python(TransactionOf(data))
  {
    hide TransactionOf;
    var f := ParseFront(data);
    match f {
      case Stopped(e) => return Rejected(e);
      case Front(signatures, messageBytes, info) =>
        if |signatures| != info.required {
          return Rejected(SignatureCountMismatch(|signatures|, info.required));
        }
        if |info.keys| < info.required {
          return Rejected(NotEnoughKeys);
        }
        return Accepted(ParsedTransaction(messageBytes, info.v0, info.required, Jobs(info.keys, signatures, info.required)));
    }
  }

  method RustParseTransaction(data: seq<nat>) returns (r: Outcome)
    ensures r == Rust(TransactionOf(data))
  {
    hide TransactionOf;
    var f := ParseFront(data);
    match f {
      case Stopped(e) => return Rejected(e);
      case Front(signatures, messageBytes, info) =>
        if |signatures| % 256 != info.required {
          return Rejected(SignatureCountMismatch(|signatures|, info.required));
        }
        if |info.keys| < info.required {
          return Rejected(NotEnoughKeys);
        }
        var jobs := [];
        for index := 0 to |signatures|
          invariant index <= |info.keys| && jobs == Jobs(info.keys, signatures, index)
        {
          if index >= |info.keys| {
            return Panicked;
          }
          jobs := jobs + [VerificationJob(index, info.keys[index], signatures[index])];
        }
        return Accepted(ParsedTransaction(messageBytes, info.v0, info.required, jobs));
    }
  }
}
