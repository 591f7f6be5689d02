/** Cutting received bytes into TLS records (RFC 8446 section 5.1) and feeding them one by one. */
module TlsRecords {
  import opened Words

  /** What one `do_handshake` call reports: 0, 1 or -1. */
  datatype Handshake = Want | Done | Failed

  /** The TLS library: the result of the k-th `do_handshake` call of one turn. */
  type Oracle = nat -> Handshake

  const MAX_PUMPS := 10

  function RecordSize(data: seq<Byte>, off: nat): (n: nat)
    requires off + 5 <= |data|
    ensures n >= 5
  {
    5 + FromBE(data[off + 3..off + 5])
  }

  /** A complete record of type 20 to 23 starts at off. */
  predicate WholeRecordAt(data: seq<Byte>, off: nat) {
    off + 5 <= |data| && 20 <= data[off] <= 23 && off + RecordSize(data, off) <= |data|
  }

  /** Type and length as they stand in the five bytes of the record's header, the length high byte first. */
  lemma WholeRecordExact(data: seq<Byte>, off: nat)
    ensures WholeRecordAt(data, off) <==>
              && off + 5 <= |data| && data[off] in {20, 21, 22, 23}
              && off + 5 + (data[off + 3] as int) * 256 + data[off + 4] <= |data|
    ensures off + 5 <= |data| ==> RecordSize(data, off) == 5 + (data[off + 3] as int) * 256 + data[off + 4]
  {
    if off + 5 <= |data| {
      assert data[off + 3..off + 5] == [data[off + 3], data[off + 4]];
      TwoBytes(data[off + 3], data[off + 4]);
    }
    hide FromBE;
  }

  /** Positions that cut a prefix of the data into consecutive whole records, starting at offset 0. */
  ghost predicate Cuts(data: seq<Byte>, cuts: seq<nat>) {
    && cuts != [] && cuts[0] == 0
    && (forall i :: 0 <= i < |cuts| ==> cuts[i] <= |data|)
    && (forall i :: 0 <= i < |cuts| - 1 ==>
          WholeRecordAt(data, cuts[i]) && cuts[i + 1] == cuts[i] + RecordSize(data, cuts[i]))
  }

  /** The bytes of the record between cut i and the next one. */
  ghost predicate Between(data: seq<Byte>, cuts: seq<nat>, i: nat, record: seq<Byte>) {
    i + 1 < |cuts| && cuts[i] <= cuts[i + 1] <= |data| && record == data[cuts[i]..cuts[i + 1]]
  }

  /** Every way to cut records from the front is the beginning of one that cannot be continued. */
  lemma {:induction false} LongestCuts(data: seq<Byte>, cuts: seq<nat>, other: seq<nat>)
    requires Cuts(data, cuts) && Cuts(data, other)
    requires !WholeRecordAt(data, cuts[|cuts| - 1])
    ensures other <= cuts
  {
    if |other| > 1 {
      var front := other[..|other| - 1];
      LongestCuts(data, cuts, front);
      var n := |front|;
      assert other[n - 1] == cuts[n - 1] && WholeRecordAt(data, cuts[n - 1]);
      assert other[n] == cuts[n];
    } else {
      assert other == cuts[..1];
    }
  }

  lemma CutsStart(data: seq<Byte>)
    ensures Cuts(data, [0])
  {
  }

  lemma CutsExtend(data: seq<Byte>, cuts: seq<nat>)
    requires Cuts(data, cuts) && WholeRecordAt(data, cuts[|cuts| - 1])
    ensures var off := cuts[|cuts| - 1]; Cuts(data, cuts + [off + RecordSize(data, off)])
  {
    hide FromBE;
  }

  /** One record of its own: header and as many bytes as the header says. */
  predicate IsRecord(r: seq<Byte>) {
    |r| >= 5 && r[0] in {20, 21, 22, 23} && |r| == 5 + (r[3] as int) * 256 + r[4]
  }

  function Joined(records: seq<seq<Byte>>): seq<Byte> {
    if records == [] then [] else Joined(records[..|records| - 1]) + records[|records| - 1]
  }

  lemma CutsLonger(data: seq<Byte>, more: seq<Byte>, cuts: seq<nat>)
    requires Cuts(data, cuts)
    ensures Cuts(data + more, cuts)
  {
    hide FromBE, RecordSize;
    forall i | 0 <= i < |cuts| - 1
      ensures WholeRecordAt(data + more, cuts[i]) && cuts[i + 1] == cuts[i] + RecordSize(data + more, cuts[i])
    {
      RecordLonger(data, more, cuts[i]);
    }
  }

  lemma BetweenLonger(data: seq<Byte>, more: seq<Byte>, cuts: seq<nat>, i: nat, r: seq<Byte>)
    requires Between(data, cuts, i, r)
    ensures Between(data + more, cuts, i, r)
  {
  }

  lemma RecordLonger(data: seq<Byte>, more: seq<Byte>, off: nat)
    requires WholeRecordAt(data, off)
    ensures WholeRecordAt(data + more, off) && RecordSize(data + more, off) == RecordSize(data, off)
  {
    WholeRecordExact(data, off);
    WholeRecordExact(data + more, off);
    hide WholeRecordAt, RecordSize;
  }

  lemma RecordBehind(data: seq<Byte>, r: seq<Byte>)
    requires IsRecord(r)
    ensures WholeRecordAt(data + r, |data|) && RecordSize(data + r, |data|) == |r|
  {
    WholeRecordExact(data + r, |data|);
    hide WholeRecordAt, RecordSize;
  }

  /** Round trip: records laid end to end are cut at exactly their boundaries. */
  lemma {:induction false} SplitBack(records: seq<seq<Byte>>) returns (cuts: seq<nat>)
    requires forall i :: 0 <= i < |records| ==> IsRecord(records[i])
    ensures Cuts(Joined(records), cuts) && |cuts| == |records| + 1 && cuts[|records|] == |Joined(records)|
    ensures forall i :: 0 <= i < |records| ==> Between(Joined(records), cuts, i, records[i])
  {
    hide Cuts, WholeRecordAt, RecordSize, IsRecord;
    var data := Joined(records);
    if records == [] {
      cuts := [0];
      CutsStart(data);
    } else {
      var n := |records| - 1;
      var front, last := Joined(records[..n]), records[n];
      var some := SplitBack(records[..n]);
      CutsLonger(front, last, some);
      RecordBehind(front, last);
      CutsExtend(data, some);
      cuts := some + [|data|];
      forall i | 0 <= i < |records| ensures Between(data, cuts, i, records[i]) {
        if i < n {
          assert Between(front, some, i, records[..n][i]);
          BetweenLonger(front, last, some, i, records[i]);
        }
      }
    }
  }

  // ---------- Pumping ----------

  /** The calls of the pump loop that starts with call k: until one does not want more, at most ten. */
  function Pumps(hs: Oracle, k: nat, n: nat): (m: nat)
    requires n < MAX_PUMPS
    ensures n < m <= MAX_PUMPS
    decreases MAX_PUMPS - n
  {
    if hs(k + n) != Want || n + 1 == MAX_PUMPS then n + 1 else Pumps(hs, k, n + 1)
  }

  /** The pump loop stops at the first call that does not want more, or after ten that do. */
  lemma {:induction false} PumpsMeaning(hs: Oracle, k: nat, n: nat)
    requires n < 10
    ensures var m := Pumps(hs, k, n);
            && n < m <= 10
            && (forall c: nat :: k + n <= c < k + m - 1 ==> hs(c) == Want)
            && (hs(k + m - 1) == Want ==> m == 10)
    decreases MAX_PUMPS - n
  {
    if !(hs(k + n) != Want || n + 1 == MAX_PUMPS) {
      PumpsMeaning(hs, k, n + 1);
    }
  }

  function PumpEnd(hs: Oracle, k: nat): nat { k + Pumps(hs, k, 0) }

  function PumpResult(hs: Oracle, k: nat): Handshake { hs(PumpEnd(hs, k) - 1) }

  /** The number of `do_handshake` calls made once n records have been fed. */
  function CallsAfter(hs: Oracle, n: nat): nat {
    if n == 0 then 0 else PumpEnd(hs, CallsAfter(hs, n - 1))
  }

  /** The handshake completed while pumping after record n (counted from 0). */
  predicate DoneAfter(hs: Oracle, n: nat) { PumpResult(hs, CallsAfter(hs, n)) == Done }

  /**
   * The calls after record n follow those before it. They stop at the first one that does not want more, or after ten;
   * the handshake is complete after the record exactly if the last of them says so.
   */
  lemma CallsMeaning(hs: Oracle, n: nat)
    ensures CallsAfter(hs, 0) == 0
    ensures var k, m := CallsAfter(hs, n), CallsAfter(hs, n + 1);
            && k < m <= k + 10
            && (forall c: nat :: k <= c < m - 1 ==> hs(c) == Want)
            && (hs(m - 1) == Want ==> m == k + 10)
            && (DoneAfter(hs, n) <==> hs(m - 1) == Done)
  {
    hide Pumps;
    PumpsMeaning(hs, CallsAfter(hs, n), 0);
  }

  // ---------- Feeding ----------

  /** What the feed loop does with some data: where it cut, and whether the handshake completed in it. */
  ghost predicate FeedResult(data: seq<Byte>, hs: Oracle, cuts: seq<nat>, done: bool) {
    var n := |cuts| - 1;
    && Cuts(data, cuts)
    && (forall i :: 0 <= i < n - 1 ==> !DoneAfter(hs, i))
    && (done <==> n > 0 && DoneAfter(hs, n - 1))
    && (!done ==> !WholeRecordAt(data, cuts[n]))
  }

  /** Where the loop runs to its end, nothing longer can be cut from the front. */
  lemma FeedLongest(data: seq<Byte>, hs: Oracle, cuts: seq<nat>, other: seq<nat>)
    requires FeedResult(data, hs, cuts, false) && Cuts(data, other)
    ensures other <= cuts
  {
    hide Cuts, WholeRecordAt;
    LongestCuts(data, cuts, other);
  }

  /** The outcome of the feed loop: records fed, whether the handshake completed in it, and the offset it reached. */
  datatype Progress = Progress(records: nat, done: bool, end: nat)

  /** The loop's outcome as a function of the data from offset off on, n records having been fed. */
  function Outcome(data: seq<Byte>, hs: Oracle, off: nat, n: nat): (r: Progress)
    requires off <= |data|
    ensures r.records >= n && off <= r.end <= |data|
    decreases |data| - off
  {
    if !WholeRecordAt(data, off) then Progress(n, false, off)
    else
      var next := off + RecordSize(data, off);
      if DoneAfter(hs, n) then Progress(n + 1, true, next) else Outcome(data, hs, next, n + 1)
  }

  /** The function and the loop agree on the records fed, where they end, and whether the handshake completed. */
  lemma {:induction false} FeedAgrees(data: seq<Byte>, hs: Oracle, cuts: seq<nat>, done: bool, n: nat)
    requires FeedResult(data, hs, cuts, done)
    requires n < |cuts| && (n == |cuts| - 1 ==> !done)
    ensures Outcome(data, hs, cuts[n], n) == Progress(|cuts| - 1, done, cuts[|cuts| - 1])
    decreases |cuts| - n
  {
    hide FromBE, DoneAfter;
    if n < |cuts| - 2 {
      FeedAgrees(data, hs, cuts, done, n + 1);
    } else if n == |cuts| - 2 && !done {
      FeedAgrees(data, hs, cuts, done, n + 1);
    }
  }

  /** Records cut so far, without completion, can be continued to what the loop does. */
  lemma {:induction false} FeedFrom(data: seq<Byte>, hs: Oracle, cuts: seq<nat>) returns (all: seq<nat>)
    requires Cuts(data, cuts) && forall i :: 0 <= i < |cuts| - 1 ==> !DoneAfter(hs, i)
    ensures FeedResult(data, hs, all, Outcome(data, hs, cuts[|cuts| - 1], |cuts| - 1).done)
    decreases |data| - cuts[|cuts| - 1]
  {
    hide FromBE, DoneAfter;
    all := cuts;
    var off, n := cuts[|cuts| - 1], |cuts| - 1;
    if WholeRecordAt(data, off) {
      CutsExtend(data, cuts);
      all := cuts + [off + RecordSize(data, off)];
      if !DoneAfter(hs, n) {
        all := FeedFrom(data, hs, all);
      }
    }
  }

  /** The feed loop uses up the data: it is cut into records, up to the one that completes the handshake. */
  ghost predicate CutExactly(data: seq<Byte>, hs: Oracle) {
    exists cuts, done :: FeedResult(data, hs, cuts, done) && cuts[|cuts| - 1] == |data|
  }

  lemma {:induction false} EndExact(data: seq<Byte>, hs: Oracle)
    ensures Outcome(data, hs, 0, 0).end == |data| <==> CutExactly(data, hs)
  {
    hide WholeRecordAt, DoneAfter;
    CutsStart(data);
    var all := FeedFrom(data, hs, [0]);
    FeedAgrees(data, hs, all, Outcome(data, hs, 0, 0).done, 0);
    if CutExactly(data, hs) {
      var cuts, done :| FeedResult(data, hs, cuts, done) && cuts[|cuts| - 1] == |data|;
      FeedAgrees(data, hs, cuts, done, 0);
    }
  }
}
