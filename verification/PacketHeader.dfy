/** The header of a packet on the bit stream: written into 80 bits, and read back from what
    follows its size byte. */
module PacketHeader {
  import opened AckProtocol
  import opened Bits
  import opened BitStream
  import opened PackedHeader

  /** The four bytes of a word as they lie in memory. */
  function WordBytes(w: bv32): seq<bv8> {
    [Low8(w), Low8(w >> 8), Low8(w >> 16), Low8(w >> 24)]
  }

  /** The size byte, the magic number, session and client, the handshake flag, the packed
      numbers. */
  function FixedOps(packed: bv32): (ops: seq<Op>)
    ensures |ops| == 6
  {
    [Bytes([0]), SomeBits([0], 1), SomeBits([0], 2), SomeBits([0], 3), SomeBits([0], 1), Bytes(WordBytes(packed))]
  }

  function HistoryOps(words: seq<bv32>): (ops: seq<Op>)
    ensures |ops| == |words|
  {
    seq(|words|, i requires 0 <= i < |words| => Bytes(WordBytes(words[i])))
  }

  /** What the packet's header callback writes. */
  function HeaderOps(packed: bv32, words: seq<bv32>): seq<Op> {
    FixedOps(packed) + HistoryOps(words)
  }

  lemma HeaderSized(packed: bv32, words: seq<bv32>)
    ensures AllSized(HeaderOps(packed, words))
  {
  }

  lemma FixedLength(packed: bv32)
    ensures AllSized(FixedOps(packed)) && |EncodeAll(FixedOps(packed))| == 47
    ensures Accepted(FixedOps(packed), PACKET_HEADER_BITS) == FixedOps(packed)
  {
    hide Encode, EncodeAll, Accepted, Bits.GetBit;
    var ops := FixedOps(packed);
    assert AllSized(ops);
    AcceptStep(ops, 0, 0, 8);
    AcceptStep(ops, 1, 8, 1);
    AcceptStep(ops, 2, 9, 2);
    AcceptStep(ops, 3, 11, 3);
    AcceptStep(ops, 4, 14, 1);
    AcceptStep(ops, 5, 15, 32);
    assert ops[..6] == ops;
  }

  /** One more operation of the given length, while there is room. */
  lemma AcceptStep(ops: seq<Op>, i: nat, before: nat, length: nat)
    requires AllSized(ops) && i < |ops| && Plain(ops[i], length) && before + length <= PACKET_HEADER_BITS
    requires i == 0 ==> before == 0
    requires i > 0 ==> Accepted(ops[..i], PACKET_HEADER_BITS) == ops[..i] && |EncodeAll(ops[..i])| == before
    ensures Accepted(ops[..i + 1], PACKET_HEADER_BITS) == ops[..i + 1] && |EncodeAll(ops[..i + 1])| == before + length
  {
    hide Encode;
    PlainLength(ops[i], length);
    if i == 0 {
      assert ops[..0] == [];
    }
    AcceptNext(ops, i, PACKET_HEADER_BITS);
    assert ops[..i + 1] == ops[..i] + [ops[i]];
  }

  predicate Plain(op: Op, length: nat) {
    (op.SomeBits? && op.n == length <= 8 * |op.src|) || (op.Bytes? && 8 * |op.bytes| == length)
  }

  lemma PlainLength(op: Op, length: nat)
    requires Plain(op, length)
    ensures Sized(op) && |Encode(op)| == length && Reserved(op) == length
  {
  }

  /** Of the history the writer takes the first word and no other. */
  lemma {:induction false} OneWordAccepted(packed: bv32, words: seq<bv32>)
    ensures AllSized(HeaderOps(packed, words))
    ensures Accepted(HeaderOps(packed, words), PACKET_HEADER_BITS)
         == HeaderOps(packed, if words == [] then [] else words[..1])
    ensures |EncodeAll(Accepted(HeaderOps(packed, words), PACKET_HEADER_BITS))| == if words == [] then 47 else 79
    decreases |words|
  {
    hide FixedOps, Encode, EncodeAll, Accepted;
    FixedLength(packed);
    HeaderSized(packed, words);
    var ops := HeaderOps(packed, words);
    if words == [] {
      assert ops == FixedOps(packed);
    } else {
      var n := |words| - 1;
      OneWordAccepted(packed, words[..n]);
      assert ops[..|ops| - 1] == HeaderOps(packed, words[..n]) && ops[|ops| - 1] == Bytes(WordBytes(words[n]));
      PlainLength(ops[|ops| - 1], 32);
      AcceptNext(ops, |ops| - 1, PACKET_HEADER_BITS);
      assert ops[..|ops| - 1 + 1] == ops;
      if n == 0 {
        assert HeaderOps(packed, words[..0]) + [ops[|ops| - 1]] == ops && words[..1] == words;
      } else {
        assert words[..n][..1] == words[..1];
      }
    }
  }

  /** The reads of the header callback: flags, packed numbers, and the words announced. */
  function HeaderShapes(words: nat): seq<Shape> {
    [ReadSome(1), ReadSome(2), ReadSome(3), ReadOne, ReadBytes(4)] + seq(words, _ => ReadBytes(4))
  }

  /** No read fails. */
  ghost predicate ReadsAll(shapes: seq<Shape>, bits: seq<bool>)
    decreases |shapes|
  {
    shapes == [] ||
    (var d := Decode(shapes[0], bits);
     !d.failed && d.used <= |bits| && ReadsAll(shapes[1..], bits[d.used..]))
  }

  lemma {:induction false} WordsReadIff(words: nat, bits: seq<bool>)
    ensures ReadsAll(seq(words, _ => ReadBytes(4)), bits) <==> BITS_PER_WORD * words <= |bits|
    decreases words
  {
    if words > 0 {
      var shapes := seq(words, _ => ReadBytes(4));
      assert shapes[1..] == seq(words - 1, _ => ReadBytes(4));
      if 32 <= |bits| {
        WordsReadIff(words - 1, bits[32..]);
      }
    }
  }

  lemma HeaderReadIff(words: nat, bits: seq<bool>)
    requires |bits| >= 39
    ensures ReadsAll(HeaderShapes(words), bits) <==> 39 + BITS_PER_WORD * words <= |bits|
  {
    var s, tail := HeaderShapes(words), seq(words, _ => ReadBytes(4));
    ReadStep(s, bits, 1);
    ReadStep(s[1..], bits[1..], 2);
    ReadStep(s[2..], bits[3..], 3);
    ReadStep(s[3..], bits[6..], 1);
    ReadStep(s[4..], bits[7..], 32);
    assert s[1..][1..] == s[2..] && s[2..][1..] == s[3..] && s[3..][1..] == s[4..] && s[4..][1..] == tail;
    assert bits[1..][2..] == bits[3..] && bits[3..][3..] == bits[6..] && bits[6..][1..] == bits[7..]
           && bits[7..][32..] == bits[39..];
    WordsReadIff(words, bits[39..]);
  }

  lemma ReadStep(shapes: seq<Shape>, bits: seq<bool>, length: nat)
    requires shapes != [] && 0 < length <= |bits|
    requires shapes[0] == ReadSome(length) || (shapes[0] == ReadOne && length == 1)
             || (shapes[0] == ReadBytes(4) && length == 32)
    ensures ReadsAll(shapes, bits) <==> ReadsAll(shapes[1..], bits[length..])
  {
  }

  /** What is sent behind the size byte: the bits written, filled up to whole bytes. */
  ghost function OnWire(content: seq<bool>): (bits: seq<bool>)
    requires |content| >= 8
    ensures |bits| == 8 * ((|content| + 7) / 8) - 8
  {
    content[8..] + seq(8 * ((|content| + 7) / 8) - |content|, _ => false)
  }

  /** A header written with the given history, which its packed numbers announce, is read
      without an error exactly when the protocol calls it readable: with one word.  Then the
      writer has refused nothing. */
  lemma ReadableIsRead(packed: bv32, words: seq<bv32>, h: Header)
    requires 1 <= |words| == h.words
    ensures AllSized(HeaderOps(packed, words))
    ensures var kept := Accepted(HeaderOps(packed, words), PACKET_HEADER_BITS);
            && |EncodeAll(kept)| >= 8
            && (ReadsAll(HeaderShapes(|words|), OnWire(EncodeAll(kept))) <==> Readable(h))
            && (Readable(h) <==> kept == HeaderOps(packed, words))
  {
    hide EncodeAll, Accepted, ReadsAll, FixedOps, HeaderShapes;
    OneWordAccepted(packed, words);
    HeaderReadIff(|words|, OnWire(EncodeAll(Accepted(HeaderOps(packed, words), PACKET_HEADER_BITS))));
    assert |words| == 1 ==> words[..1] == words;
  }

  // ----- the words announced -----

  /** A word count as it is packed. */
  function CountWord(n: nat): bv32 {
    if n == 0 then 0 else CountWord(n - 1) + 1
  }

  /** The count of words written is read back from the packed numbers. */
  lemma AnnouncedIsWritten(seqNo: bv32, ackedSeq: bv32, n: nat)
    requires 1 <= n <= WORD_COUNT && seqNo <= SEQ_MASK && ackedSeq <= SEQ_MASK
    ensures GetHistoryWordCount(Pack(seqNo, ackedSeq, CountWord(n - 1))) == CountWord(n - 1)
    ensures GetSeq(Pack(seqNo, ackedSeq, CountWord(n - 1))) == seqNo
    ensures GetAckedSeq(Pack(seqNo, ackedSeq, CountWord(n - 1))) == ackedSeq
  {
    assert CountWord(0) == 0 && CountWord(1) == 1 && CountWord(2) == 2 && CountWord(3) == 3;
    assert CountWord(4) == 4 && CountWord(5) == 5 && CountWord(6) == 6 && CountWord(7) == 7;
    hide Pack, GetSeq, GetAckedSeq, GetHistoryWordCount;
    PackRoundTripIff(seqNo, ackedSeq, CountWord(n - 1));
  }
}
