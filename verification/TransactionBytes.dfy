/**
 * Transactions byte by byte, written without the parser's format: what a client sends, and the proof
 * that both parsers accept it with the right jobs.
 */
module TransactionBytes {
  import opened Parser
  import Format = TransactionFormat

  datatype Instruction = Instruction(program: nat, accounts: seq<nat>, data: seq<nat>)

  datatype Lookup = Lookup(key: seq<nat>, writable: seq<nat>, readonly: seq<nat>)

  /** What a transaction says; a legacy one has no lookups. */
  datatype Contents = Contents(signatures: seq<seq<nat>>, readonlySigned: nat, readonlyUnsigned: nat, keys: seq<seq<nat>>,
                               blockhash: seq<nat>, instructions: seq<Instruction>, v0: bool, lookups: seq<Lookup>)

  predicate Countable<T>(s: seq<T>) {
    |s| <= 0xFFFF
  }

  ghost predicate Sendable(c: Contents) {
    && |c.signatures| < (if c.v0 then 256 else 128) && |c.signatures| <= |c.keys|
    && Countable(c.keys) && Countable(c.instructions) && Countable(c.lookups)
    && (forall i :: 0 <= i < |c.signatures| ==> |c.signatures[i]| == 64)
    && (forall i :: 0 <= i < |c.keys| ==> |c.keys[i]| == 32)
    && |c.blockhash| == 32
    && (forall i :: 0 <= i < |c.instructions| ==> Countable(c.instructions[i].accounts) && Countable(c.instructions[i].data))
    && (forall i :: 0 <= i < |c.lookups| ==>
          |c.lookups[i].key| == 32 && Countable(c.lookups[i].writable) && Countable(c.lookups[i].readonly))
  }

  // ----- the bytes -----

  /** compact-u16 by cases: one, two or three bytes. */
  function CountBytes(n: nat): seq<nat> {
    if n < 0x80 then [n]
    else if n < 0x4000 then [n % 0x80 + 0x80, n / 0x80]
    else [n % 0x80 + 0x80, n / 0x80 % 0x80 + 0x80, n / 0x4000]
  }

  function Joined(parts: seq<seq<nat>>): seq<nat> {
    if parts == [] then [] else parts[0] + Joined(parts[1..])
  }

  function InstructionBytes(i: Instruction): seq<nat> {
    [i.program] + CountBytes(|i.accounts|) + i.accounts + CountBytes(|i.data|) + i.data
  }

  function LookupBytes(l: Lookup): seq<nat> {
    l.key + CountBytes(|l.writable|) + l.writable + CountBytes(|l.readonly|) + l.readonly
  }

  function AllInstructions(instructions: seq<Instruction>): seq<nat> {
    if instructions == [] then [] else InstructionBytes(instructions[0]) + AllInstructions(instructions[1..])
  }

  function AllLookups(lookups: seq<Lookup>): seq<nat> {
    if lookups == [] then [] else LookupBytes(lookups[0]) + AllLookups(lookups[1..])
  }

  /** The signed part: version, header, keys, blockhash, instructions, lookups. */
  function MessageBytes(c: Contents): seq<nat> {
    (if c.v0 then [0x80] else []) + [|c.signatures|, c.readonlySigned, c.readonlyUnsigned]
    + CountBytes(|c.keys|) + Joined(c.keys) + c.blockhash + CountBytes(|c.instructions|) + AllInstructions(c.instructions)
    + (if c.v0 then CountBytes(|c.lookups|) + AllLookups(c.lookups) else [])
  }

  function Bytes(c: Contents): seq<nat> {
    CountBytes(|c.signatures|) + Joined(c.signatures) + MessageBytes(c)
  }

  // ----- the same as a transaction of the format -----

  /** encode_compact_u16 produces these bytes, and they decode to the count. */
  lemma CountIs(n: nat)
    requires n <= 0xFFFF
    ensures CountBytes(n) == Format.Compact(n) && Format.IsCount(Format.Count(CountBytes(n), n))
  {
    Format.CompactRoundTrip(n);
    var n1, n2 := n / 128, n / 128 / 128;
    if n < 0x80 {
    } else if n < 0x4000 {
      assert Format.Compact(n) == [n % 128 + 128] + Format.Compact(n1);
    } else {
      assert n2 == n / 0x4000;
      assert Format.Compact(n1) == [n1 % 128 + 128] + Format.Compact(n2);
      assert Format.Compact(n) == [n % 128 + 128] + Format.Compact(n1);
    }
  }

  /** The decoder by cases on the bytes: minimal or not, up to three bytes, and at most 16 bits. */
  lemma CountDecodes(s: seq<nat>)
    ensures Format.Septets(s, 3, 1, 0) ==
      if s == [] then Format.Bad(Format.TruncatedCompact)
      else if s[0] < 128 then Format.Good(Format.Item(s[0], s[1..]))
      else if |s| == 1 then Format.Bad(Format.TruncatedCompact)
      else if s[1] < 128 then Format.Good(Format.Item(s[0] % 128 + 128 * s[1], s[2..]))
      else if |s| == 2 then Format.Bad(Format.TruncatedCompact)
      else if s[2] >= 128 then Format.Bad(Format.CompactTooLong)
      else
        var value := s[0] % 128 + 128 * (s[1] % 128) + 128 * 128 * s[2];
        if value > 0xFFFF then Format.Bad(Format.CompactOverflow) else Format.Good(Format.Item(value, s[3..]))
  {
    if s != [] && s[0] >= 128 && |s| > 1 {
      var t := s[1..];
      assert t[1..] == s[2..];
      if t[0] >= 128 && |t| > 1 {
        var u := t[1..];
        assert u[1..] == s[3..];
      }
    }
  }

  function CountOf(n: nat): Format.Count {
    Format.Count(CountBytes(n), n)
  }

  function InstructionEntry(i: Instruction): Format.Entry {
    Format.Entry([i.program], CountOf(|i.accounts|), i.accounts, CountOf(|i.data|), i.data)
  }

  function LookupEntry(l: Lookup): Format.Entry {
    Format.Entry(l.key, CountOf(|l.writable|), l.writable, CountOf(|l.readonly|), l.readonly)
  }

  function InstructionEntries(instructions: seq<Instruction>): (es: seq<Format.Entry>)
    ensures |es| == |instructions|
  {
    seq(|instructions|, i requires 0 <= i < |instructions| => InstructionEntry(instructions[i]))
  }

  function LookupEntries(lookups: seq<Lookup>): (es: seq<Format.Entry>)
    ensures |es| == |lookups|
  {
    seq(|lookups|, i requires 0 <= i < |lookups| => LookupEntry(lookups[i]))
  }

  lemma FiveParts(a: seq<nat>, b: seq<nat>, c: seq<nat>, d: seq<nat>, e: seq<nat>)
    ensures a + b + c + d + e == a + (b + (c + (d + e)))
  {
  }

  lemma {:induction false} JoinedIs(parts: seq<seq<nat>>)
    ensures Format.FlattenChunks(parts) == Joined(parts)
  {
    if parts != [] {
      JoinedIs(parts[1..]);
    }
  }

  lemma {:induction false} InstructionsAre(instructions: seq<Instruction>)
    requires forall i :: 0 <= i < |instructions| ==> Countable(instructions[i].accounts) && Countable(instructions[i].data)
    ensures Format.AreEntries(InstructionEntries(instructions), Format.InstructionKind)
    ensures Format.FlattenEntries(InstructionEntries(instructions)) == AllInstructions(instructions)
  {
    hide CountBytes, Format.IsCount;
    if instructions != [] {
      var i, es := instructions[0], InstructionEntries(instructions);
      InstructionsAre(instructions[1..]);
      assert es[1..] == InstructionEntries(instructions[1..]);
      CountIs(|i.accounts|);
      CountIs(|i.data|);
      FiveParts([i.program], CountBytes(|i.accounts|), i.accounts, CountBytes(|i.data|), i.data);
      assert es == [es[0]] + es[1..];
    }
  }

  lemma {:induction false} LookupsAre(lookups: seq<Lookup>)
    requires forall i :: 0 <= i < |lookups| ==>
      |lookups[i].key| == 32 && Countable(lookups[i].writable) && Countable(lookups[i].readonly)
    ensures Format.AreEntries(LookupEntries(lookups), Format.LookupKind)
    ensures Format.FlattenEntries(LookupEntries(lookups)) == AllLookups(lookups)
  {
    hide CountBytes, Format.IsCount;
    if lookups != [] {
      var l, es := lookups[0], LookupEntries(lookups);
      LookupsAre(lookups[1..]);
      assert es[1..] == LookupEntries(lookups[1..]);
      CountIs(|l.writable|);
      CountIs(|l.readonly|);
      FiveParts(l.key, CountBytes(|l.writable|), l.writable, CountBytes(|l.readonly|), l.readonly);
      assert es == [es[0]] + es[1..];
    }
  }

  function MessageOf(c: Contents): Format.Message {
    Format.Message(|c.signatures|, c.readonlySigned, c.readonlyUnsigned, CountOf(|c.keys|), c.keys, c.blockhash,
      CountOf(|c.instructions|), InstructionEntries(c.instructions),
      if c.v0 then Format.V0(CountOf(|c.lookups|), LookupEntries(c.lookups)) else Format.Legacy)
  }

  function TransactionOf(c: Contents): Format.Transaction {
    Format.Transaction(CountOf(|c.signatures|), c.signatures, MessageBytes(c), MessageOf(c))
  }

  lemma MessageIs(c: Contents)
    requires Sendable(c)
    ensures Format.IsMessage(MessageOf(c)) && Format.FlattenMessage(MessageOf(c)) == MessageBytes(c)
  {
    hide CountBytes, Format.IsCount, Format.FlattenEntries, Format.AreEntries, Format.FlattenChunks, InstructionEntries, LookupEntries;
    CountIs(|c.keys|);
    CountIs(|c.instructions|);
    CountIs(|c.lookups|);
    JoinedIs(c.keys);
    InstructionsAre(c.instructions);
    LookupsAre(c.lookups);
    var header := [|c.signatures|, c.readonlySigned, c.readonlyUnsigned];
    var tail := if c.v0 then CountBytes(|c.lookups|) + AllLookups(c.lookups) else [];
    Nested(if c.v0 then [0x80] else [], header, CountBytes(|c.keys|), Joined(c.keys), c.blockhash,
      CountBytes(|c.instructions|), AllInstructions(c.instructions), tail);
  }

  lemma Nested(a: seq<nat>, b: seq<nat>, c: seq<nat>, d: seq<nat>, e: seq<nat>, f: seq<nat>, g: seq<nat>, h: seq<nat>)
    ensures a + b + c + d + e + f + g + h == a + (b + (c + (d + (e + (f + (g + h))))))
  {
    FiveParts(a, b, c, d, e);
    FiveParts(a + b + c + d, e, f, g, h);
    FiveParts(a, b, c, d, e + (f + (g + h)));
  }

  /**
   * Whatever a client can say in a transaction, legacy or v0, is accepted by both parsers: the message
   * is exactly the bytes after the signatures, and job i is key i with signature i.
   */
  lemma BytesAreAccepted(c: Contents)
    requires Sendable(c)
    ensures var jobs := seq(|c.signatures|, i requires 0 <= i < |c.signatures| =>
        VerificationJob(i, c.keys[i], c.signatures[i]));
      var outcome := Accepted(ParsedTransaction(MessageBytes(c), c.v0, |c.signatures|, jobs));
      Python(Format.TransactionOf(Bytes(c))) == outcome && Rust(Format.TransactionOf(Bytes(c))) == outcome
  {
    var t := TransactionOf(c);
    hide MessageBytes, Format.IsMessage, Format.FlattenMessage, Format.TransactionOf, CountBytes, Format.IsCount, Format.FlattenChunks;
    MessageIs(c);
    CountIs(|c.signatures|);
    JoinedIs(c.signatures);
    assert Bytes(c) == Format.Flatten(t) by {
      hide Joined;
      assert Bytes(c) == CountBytes(|c.signatures|) + (Joined(c.signatures) + MessageBytes(c));
    }
    RoundTrip(t);
  }
}
