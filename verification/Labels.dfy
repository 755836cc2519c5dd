/** Sequence numbers and labels: `init` and the label macros of the message header. */
module Labels {
  const TWO_16: nat := 0x1_0000
  const TWO_32: nat := 0x1_0000_0000

  /** `SEQUENCE_TO_LABEL`: the low words of a sequence number and of an address, packed. */
  function SequenceToLabel(sequence: nat, address: nat): nat {
    sequence % TWO_32 + (address % TWO_32) * TWO_32
  }

  /** `LABEL_TO_SEQUENCE` */
  function LabelToSequence(lbl: nat): nat {
    lbl % TWO_32
  }

  /** Unpacking recovers the sequence number; the label fits 64 bits. */
  lemma SequenceRecovered(sequence: nat, address: nat)
    ensures SequenceToLabel(sequence, address) < TWO_32 * TWO_32
    ensures LabelToSequence(SequenceToLabel(sequence, address)) == sequence % TWO_32
    ensures SequenceToLabel(sequence, address) / TWO_32 == address % TWO_32
  {
  }

  /** Two packings agree exactly if both packed words do. */
  lemma PackingInjective(s: nat, a: nat, s': nat, a': nat)
    ensures SequenceToLabel(s, a) == SequenceToLabel(s', a')
            <==> s % TWO_32 == s' % TWO_32 && a % TWO_32 == a' % TWO_32
  {
    SequenceRecovered(s, a);
    SequenceRecovered(s', a');
  }

  /** The macros on 64-bit words. */
  lemma MacroInjective(s: bv64, a: bv64, s': bv64, a': bv64)
    ensures ((s & 0xFFFF_FFFF) | (a << 32)) & 0xFFFF_FFFF == s & 0xFFFF_FFFF
    ensures ((s & 0xFFFF_FFFF) | (a << 32)) == ((s' & 0xFFFF_FFFF) | (a' << 32))
            <==> s & 0xFFFF_FFFF == s' & 0xFFFF_FFFF && a & 0xFFFF_FFFF == a' & 0xFFFF_FFFF
  {
  }

  /** `gettid() << 16 | counter` as a 32-bit word. */
  function SequenceNumber(tid: nat, counter: nat): nat
    requires counter < TWO_16
  {
    (tid % TWO_16) * TWO_16 + counter
  }

  /** The low word of the thread id is above the counter. */
  lemma SequenceHalves(tid: nat, counter: nat)
    requires counter < TWO_16
    ensures SequenceNumber(tid, counter) / 0x1_0000 == tid % 0x1_0000
    ensures SequenceNumber(tid, counter) % 0x1_0000 == counter
  {
  }

  /** The sequence number of the i-th `init` of a process whose counter began at `start`. */
  function IthSequence(start: nat, tids: seq<nat>, i: nat): nat
    requires i < |tids|
  {
    SequenceNumber(tids[i], (start + i + 1) % TWO_16)
  }

  lemma CongruentExactly(a: nat, b: nat)
    requires a <= b
    ensures a % TWO_16 == b % TWO_16 <==> (b - a) % TWO_16 == 0
  {
  }

  /**
   For any threads: two `init` calls of one process give the same sequence number exactly
   if the low words of their thread ids agree and their distance is a multiple of 65536.
   */
  lemma SequencesCollideExactly(start: nat, tids: seq<nat>, i: nat, j: nat)
    requires i < j < |tids|
    ensures IthSequence(start, tids, i) == IthSequence(start, tids, j)
            <==> tids[i] % TWO_16 == tids[j] % TWO_16 && (j - i) % TWO_16 == 0
  {
    CongruentExactly(start + i + 1, start + j + 1);
    var c, d := (start + i + 1) % TWO_16, (start + j + 1) % TWO_16;
    assert SequenceNumber(tids[i], c) == SequenceNumber(tids[j], d)
           <==> tids[i] % TWO_16 == tids[j] % TWO_16 && c == d;
  }

  /** Fewer than 65536 calls apart, sequence numbers differ, whatever threads call. */
  lemma NearSequencesDiffer(start: nat, tids: seq<nat>, i: nat, j: nat)
    requires i < j < |tids| && j - i < TWO_16
    ensures IthSequence(start, tids, i) != IthSequence(start, tids, j)
  {
    SequencesCollideExactly(start, tids, i, j);
  }

  lemma CounterAdvances(n: nat)
    ensures (n + 1) % TWO_16 == if n % TWO_16 == TWO_16 - 1 then 0 else n % TWO_16 + 1
  {
  }

  lemma NewSequenceDiffers(start: nat, tids: seq<nat>, issued: seq<nat>, tid: nat)
    requires |issued| == |tids|
    requires forall i :: 0 <= i < |tids| ==> issued[i] == IthSequence(start, tids, i)
    ensures forall i :: 0 <= i < |tids| ==> issued[i] == IthSequence(start, tids + [tid], i)
    ensures forall i :: 0 <= i < |tids| && |tids| - i < TWO_16 ==>
              issued[i] != SequenceNumber(tid, (start + |tids| + 1) % TWO_16)
  {
    var all := tids + [tid];
    forall i | 0 <= i < |tids| ensures issued[i] == IthSequence(start, all, i) {
      assert all[i] == tids[i];
    }
    forall i | 0 <= i < |tids| && |tids| - i < TWO_16
      ensures issued[i] != SequenceNumber(tid, (start + |tids| + 1) % TWO_16)
    {
      NearSequencesDiffer(start, all, i, |tids|);
    }
  }

  /** The 16-bit counter shared by all headers of a process, with the history of its use. */
  class SequenceCounter {
    var mSequence: nat
    ghost var start: nat
    ghost var tids: seq<nat>
    ghost var issued: seq<nat>

    ghost predicate Valid()
      reads this
    {
      && mSequence == (start + |tids|) % TWO_16
      && |issued| == |tids|
      && forall i :: 0 <= i < |tids| ==> issued[i] == IthSequence(start, tids, i)
    }

    constructor ()
      ensures Valid() && issued == []
    {
      mSequence, start, tids, issued := 0, 0, [], [];
    }

    /** The increment wraps at 16 bits before it is packed. */
    method Init(tid: nat) returns (sequence: nat)
      requires Valid()
      modifies this
      ensures Valid() && start == old(start)
      ensures tids == old(tids) + [tid] && issued == old(issued) + [sequence]
      ensures forall i :: 0 <= i < |old(issued)| && |old(issued)| - i < TWO_16 ==> old(issued)[i] != sequence
    {
      CounterAdvances(start + |tids|);
      mSequence := if mSequence == TWO_16 - 1 then 0 else mSequence + 1;
      sequence := SequenceNumber(tid, mSequence);
      NewSequenceDiffers(start, tids, issued, tid);
      tids := tids + [tid];
      issued := issued + [sequence];
    }
  }
}
