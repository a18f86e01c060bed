/** FPackedHeader: two 14-bit numbers and a 4-bit word count in one 32-bit word. */
module PackedHeader {

  const SEQ_MASK: bv32 := 0x3FFF

  const HISTORY_WORD_COUNT_MASK: bv32 := 0xF

  function Pack(seqNo: bv32, ackedSeq: bv32, historyWordCount: bv32): bv32 {
    (seqNo << 18) | (ackedSeq << 4) | (historyWordCount & HISTORY_WORD_COUNT_MASK)
  }

  function GetSeq(packed: bv32): bv32 {
    (packed >> 18) & SEQ_MASK
  }

  function GetAckedSeq(packed: bv32): bv32 {
    (packed >> 4) & SEQ_MASK
  }

  function GetHistoryWordCount(packed: bv32): bv32 {
    packed & HISTORY_WORD_COUNT_MASK
  }

  /** Three parts are read back as they were packed exactly when each fits its field. */
  lemma PackRoundTripIff(seqNo: bv32, ackedSeq: bv32, historyWordCount: bv32)
    ensures (GetSeq(Pack(seqNo, ackedSeq, historyWordCount)) == seqNo
             && GetAckedSeq(Pack(seqNo, ackedSeq, historyWordCount)) == ackedSeq
             && GetHistoryWordCount(Pack(seqNo, ackedSeq, historyWordCount)) == historyWordCount)
            <==> seqNo <= SEQ_MASK && ackedSeq <= SEQ_MASK && historyWordCount <= HISTORY_WORD_COUNT_MASK
  {
  }
}
