/**
 * The forwarding loop: reference counts of packet buffers shared by the fast-path ring, two transmit queues and
 * the loop's own burst arrays, with the ring's consumer and the NICs working at the same time.
 */
module Forwarding {
  import opened Subsequences

  /** A packet buffer of the pool. */
  type Pkt = nat

  const BURST_SIZE := 32

  /** What the outside does between two steps of the loop: how many packets each holder lets go of. */
  datatype Others = Others(ring: nat, virt: nat, phys: nat)

  /** Everything one iteration meets. The packet lists are what the NICs offer; only free buffers are handed over. */
  datatype Oracle = Oracle(
    physOffer: seq<Pkt>,
    virtOffer: seq<Pkt>,
    isHft: Pkt -> bool,
    ringHasRoom: nat -> bool,
    virtTaken: nat,
    physTaken: nat,
    others: nat -> Others)

  predicate Distinct(s: seq<Pkt>) {
    forall i, j :: 0 <= i < j < |s| ==> s[i] != s[j]
  }

  /** The packets of a burst that the classifier sends down the fast path. */
  function HftOf(pkts: seq<Pkt>, isHft: Pkt -> bool): seq<Pkt> {
    if pkts == [] then []
    else HftOf(pkts[..|pkts| - 1], isHft) + if isHft(pkts[|pkts| - 1]) then [pkts[|pkts| - 1]] else []
  }

  /** Those among them that the ring had room for. */
  function RingOf(pkts: seq<Pkt>, isHft: Pkt -> bool, hasRoom: nat -> bool): seq<Pkt> {
    if pkts == [] then []
    else
      var n := |pkts| - 1;
      RingOf(pkts[..n], isHft, hasRoom) + if isHft(pkts[n]) && hasRoom(n) then [pkts[n]] else []
  }

  lemma HftLast(pkts: seq<Pkt>, last: Pkt, isHft: Pkt -> bool)
    ensures HftOf(pkts + [last], isHft) == HftOf(pkts, isHft) + if isHft(last) then [last] else []
  {
    assert (pkts + [last])[..|pkts|] == pkts;
  }

  /** Exactly the fast-path packets of a burst are duplicated, in order. */
  lemma {:induction false} HftExact(pkts: seq<Pkt>, isHft: Pkt -> bool, p: Pkt)
    ensures multiset(HftOf(pkts, isHft))[p] == if isHft(p) then multiset(pkts)[p] else 0
  {
    if pkts != [] {
      var front, last := pkts[..|pkts| - 1], pkts[|pkts| - 1];
      assert pkts == front + [last];
      HftExact(front, isHft, p);
      HftLast(front, last, isHft);
      hide HftOf;
    }
  }

  lemma {:induction false} HftOrder(pkts: seq<Pkt>, isHft: Pkt -> bool)
    ensures Subsequence(HftOf(pkts, isHft), pkts)
  {
    hide Subsequence;
    if pkts == [] {
      SubsequenceAll([]);
    } else {
      var front, last := pkts[..|pkts| - 1], pkts[|pkts| - 1];
      assert pkts == front + [last];
      HftOrder(front, isHft);
      if isHft(last) {
        SubsequenceBoth(HftOf(front, isHft), front, [last]);
      } else {
        assert HftOf(front, isHft) + [] == HftOf(front, isHft);
        SubsequenceOneMore(HftOf(front, isHft), front, last);
      }
    }
  }

  lemma RingLast(pkts: seq<Pkt>, last: Pkt, isHft: Pkt -> bool, hasRoom: nat -> bool)
    ensures RingOf(pkts + [last], isHft, hasRoom)
         == RingOf(pkts, isHft, hasRoom) + if isHft(last) && hasRoom(|pkts|) then [last] else []
  {
    assert (pkts + [last])[..|pkts|] == pkts;
  }

  /** Of distinct packets exactly the fast-path ones that found room enter the ring, in order. */
  lemma {:induction false} RingExact(pkts: seq<Pkt>, isHft: Pkt -> bool, hasRoom: nat -> bool, i: nat)
    requires i < |pkts| && Distinct(pkts)
    ensures pkts[i] in RingOf(pkts, isHft, hasRoom) <==> isHft(pkts[i]) && hasRoom(i)
  {
    var front, last := pkts[..|pkts| - 1], pkts[|pkts| - 1];
    assert pkts == front + [last];
    RingLast(front, last, isHft, hasRoom);
    RingIn(front, isHft, hasRoom);
    hide RingOf;
    if i < |front| {
      assert front[i] == pkts[i];
      RingExact(front, isHft, hasRoom, i);
    } else {
      assert last !in front;
    }
  }

  lemma {:induction false} RingIn(pkts: seq<Pkt>, isHft: Pkt -> bool, hasRoom: nat -> bool)
    ensures forall p :: p in RingOf(pkts, isHft, hasRoom) ==> p in pkts
  {
    if pkts != [] {
      var front, last := pkts[..|pkts| - 1], pkts[|pkts| - 1];
      RingIn(front, isHft, hasRoom);
    }
  }

  lemma {:induction false} RingOrder(pkts: seq<Pkt>, isHft: Pkt -> bool, hasRoom: nat -> bool)
    ensures Subsequence(RingOf(pkts, isHft, hasRoom), pkts)
  {
    hide Subsequence;
    if pkts == [] {
      SubsequenceAll([]);
    } else {
      var n := |pkts| - 1;
      var front, last := pkts[..n], pkts[n];
      assert pkts == front + [last];
      RingOrder(front, isHft, hasRoom);
      if isHft(last) && hasRoom(n) {
        SubsequenceBoth(RingOf(front, isHft, hasRoom), front, [last]);
      } else {
        assert RingOf(front, isHft, hasRoom) + [] == RingOf(front, isHft, hasRoom);
        SubsequenceOneMore(RingOf(front, isHft, hasRoom), front, last);
      }
    }
  }

  lemma SubsequenceAll(s: seq<Pkt>)
    requires s == []
    ensures Subsequence(s, s)
  {
  }

  predicate Free(s: seq<Pkt>, refs: multiset<Pkt>) {
    forall p :: p in s ==> p !in refs
  }

  /** What the receive call has made of the buffers offered so far. */
  ghost predicate Received(refs: multiset<Pkt>, pkts: seq<Pkt>, offered: seq<Pkt>) {
    && Distinct(pkts) && Free(pkts, refs)
    && (forall p :: p in pkts ==> p in offered)
    && (forall p :: p in offered ==> p in pkts || p in refs)
    && (Distinct(offered) && Free(offered, refs) ==> pkts == offered)
  }

  lemma ReceivedMore(refs: multiset<Pkt>, pkts: seq<Pkt>, offered: seq<Pkt>, p: Pkt)
    requires Received(refs, pkts, offered)
    ensures Received(refs, if p in refs || p in pkts then pkts else pkts + [p], offered + [p])
  {
    var all := offered + [p];
    assert p in all;
    if Distinct(all) && Free(all, refs) {
      assert Distinct(offered) by {
        forall i, j | 0 <= i < j < |offered| ensures offered[i] != offered[j] {
          assert all[i] == offered[i] && all[j] == offered[j];
        }
      }
      assert Free(offered, refs) by {
        forall q | q in offered ensures q !in refs { assert q in all; }
      }
      assert p !in offered by {
        forall i | 0 <= i < |offered| ensures offered[i] != p {
          assert all[i] == offered[i] && all[|offered|] == p;
        }
      }
    }
  }

  lemma NoneReceived(refs: multiset<Pkt>)
    ensures Received(refs, [], [])
  {
  }

  lemma ReceivedCounts(refs: multiset<Pkt>, pkts: seq<Pkt>, offered: seq<Pkt>)
    requires Received(refs, pkts, offered)
    ensures Distinct(pkts)
    ensures forall p :: p in pkts ==> (refs + multiset(pkts))[p] == 1 && p !in refs
  {
    forall p | p in pkts ensures (refs + multiset(pkts))[p] == 1 { OnceEach(pkts, p); }
  }

  lemma {:induction false} OnceEach(s: seq<Pkt>, p: Pkt)
    requires Distinct(s) && p in s
    ensures multiset(s)[p] == 1
  {
    var n := |s| - 1;
    assert s == s[..n] + [s[n]];
    if p == s[n] {
      assert p !in s[..n];
    } else {
      assert p in s[..n];
      OnceEach(s[..n], p);
    }
  }

  lemma ReceivedAll(refs: multiset<Pkt>, pkts: seq<Pkt>, offer: seq<Pkt>, i: nat)
    requires i <= |offer| && Received(refs, pkts, offer[..i])
    requires |pkts| <= BURST_SIZE && (i == |offer| || |pkts| == BURST_SIZE)
    ensures Distinct(offer) && Free(offer, refs) ==> pkts == Front(offer)
    ensures |pkts| < BURST_SIZE ==> forall p :: p in offer ==> p in pkts || p in refs
    ensures forall p :: p in pkts ==> p in offer
  {
    if Distinct(offer) && Free(offer, refs) {
      assert Distinct(offer[..i]);
      assert Free(offer[..i], refs) by {
        forall q | q in offer[..i] ensures q !in refs { assert q in offer; }
      }
    }
    if i == |offer| { assert offer[..i] == offer; }
    forall p | p in pkts ensures p in offer { assert p in offer[..i]; }
  }

  /** What a receive call can return of the buffers offered. */
  function Front(offer: seq<Pkt>): (s: seq<Pkt>)
    ensures |s| <= 32 && s <= offer && (|s| == 32 || s == offer)
  {
    if |offer| <= BURST_SIZE then offer else offer[..BURST_SIZE]
  }

  function Concat(lists: seq<seq<Pkt>>): seq<Pkt> {
    if lists == [] then [] else Concat(lists[..|lists| - 1]) + lists[|lists| - 1]
  }

  // ---------- What passes a transmit point ----------

  /** Packets offered to a transmit point so far, those it took, in order, and those freed instead. */
  datatype Channel = Channel(rx: seq<Pkt>, tx: seq<Pkt>, dropped: multiset<Pkt>)

  const EMPTY := Channel([], [], multiset{})

  /** Each packet was taken or freed exactly once, and the ones taken left in the order of arrival. */
  ghost predicate Conserved(c: Channel) {
    multiset(c.rx) == multiset(c.tx) + c.dropped && Subsequence(c.tx, c.rx)
  }

  /** A burst of which the front n are taken. */
  ghost function Pass(c: Channel, burst: seq<Pkt>, n: nat): Channel
    requires n <= |burst|
  {
    Channel(c.rx + burst, c.tx + burst[..n], c.dropped + multiset(burst[n..]))
  }

  lemma PassConserves(c: Channel, burst: seq<Pkt>, n: nat)
    requires Conserved(c) && n <= |burst|
    ensures Conserved(Pass(c, burst, n))
  {
    assert burst == burst[..n] + burst[n..];
    SubsequenceBurst(c.tx, c.rx, burst, n);
    hide Subsequence;
  }

  // ---------- Reference counts ----------

  /** The reference count of every buffer is its number of holders; a free buffer has none. */
  ghost predicate Counted(refs: multiset<Pkt>, ring: seq<Pkt>, virt: seq<Pkt>, phys: seq<Pkt>, local: multiset<Pkt>) {
    refs == multiset(ring) + multiset(virt) + multiset(phys) + local
  }

  /** Giving back the reference to the first of some packets leaves the references to the others. */
  lemma HeadOut(rest: multiset<Pkt>, s: seq<Pkt>)
    requires s != []
    ensures s[0] in multiset(s) && (rest + multiset(s)) - multiset{s[0]} == rest + multiset(s[1..])
  {
    assert s == [s[0]] + s[1..];
  }

  /** The same count, with one queue set apart from the rest. */
  lemma CountedApart(refs: multiset<Pkt>, ring: seq<Pkt>, virt: seq<Pkt>, phys: seq<Pkt>, local: multiset<Pkt>)
    ensures var c := Counted(refs, ring, virt, phys, local);
            && (c <==> refs == (multiset(virt) + multiset(phys) + local) + multiset(ring))
            && (c <==> refs == (multiset(ring) + multiset(phys) + local) + multiset(virt))
            && (c <==> refs == (multiset(ring) + multiset(virt) + local) + multiset(phys))
  {
  }

  /** The same count, with the loop's own references set apart. */
  lemma CountedRest(refs: multiset<Pkt>, ring: seq<Pkt>, virt: seq<Pkt>, phys: seq<Pkt>, local: multiset<Pkt>)
    ensures Counted(refs, ring, virt, phys, local) <==> refs == multiset(ring) + multiset(virt) + multiset(phys) + local
  {
  }

  /** The front of a burst changes hands from the loop to a transmit queue. */
  lemma HandOver(refs: multiset<Pkt>, ring: seq<Pkt>, virt: seq<Pkt>, phys: seq<Pkt>, burst: seq<Pkt>, n: nat)
    requires Counted(refs, ring, virt, phys, multiset(burst)) && n <= |burst|
    ensures Counted(refs, ring, virt + burst[..n], phys, multiset(burst[n..]))
    ensures Counted(refs, ring, virt, phys + burst[..n], multiset(burst[n..]))
  {
    assert burst == burst[..n] + burst[n..];
  }

  /** One more reference for one more holder, and back. */
  lemma OneMore(refs: multiset<Pkt>, ring: seq<Pkt>, virt: seq<Pkt>, phys: seq<Pkt>, local: multiset<Pkt>, p: Pkt)
    requires Counted(refs, ring, virt, phys, local)
    ensures Counted(refs + multiset{p}, ring + [p], virt, phys, local)
    ensures p in refs + multiset{p} && (refs + multiset{p}) - multiset{p} == refs
    ensures p in local ==> p in refs
  {
  }

  lemma FrontAndRest(rest: multiset<Pkt>, s: seq<Pkt>, k: nat)
    requires k <= |s|
    ensures rest + multiset(s) == (rest + multiset(s[k..])) + multiset(s[..k])
  {
    assert s == s[..k] + s[k..];
  }

  lemma OneReceived(refs: multiset<Pkt>, before: multiset<Pkt>, pkts: seq<Pkt>, p: Pkt)
    requires refs == before + multiset(pkts)
    ensures p in refs <==> p in before || p in pkts
    ensures p !in refs ==> refs[p := 1] == before + multiset(pkts + [p])
  {
  }

  /** References that come into use are held by the loop. */
  lemma CountedMore(refs: multiset<Pkt>, ring: seq<Pkt>, virt: seq<Pkt>, phys: seq<Pkt>, pkts: seq<Pkt>)
    requires Counted(refs, ring, virt, phys, multiset{})
    ensures Counted(refs + multiset(pkts), ring, virt, phys, multiset(pkts))
  {
  }

  lemma TakeOne(s: seq<Pkt>, p: Pkt)
    ensures s + [p][..1] == s + [p] && s + [p][..0] == s
  {
  }

  /** What a queue still holds is the end of what it was given. */
  ghost predicate Suffix(s: seq<Pkt>, t: seq<Pkt>) {
    |s| <= |t| && t[|t| - |s|..] == s
  }

  lemma SuffixPush(s: seq<Pkt>, t: seq<Pkt>, more: seq<Pkt>)
    requires Suffix(s, t)
    ensures Suffix(s + more, t + more)
  {
    assert (t + more)[|t| - |s|..] == t[|t| - |s|..] + more;
  }

  /** A queue that takes the front of a burst stays the end of what its channel took. */
  lemma SuffixPass(s: seq<Pkt>, c: Channel, burst: seq<Pkt>, n: nat)
    requires Suffix(s, c.tx) && n <= |burst|
    ensures Suffix(s + burst[..n], Pass(c, burst, n).tx)
  {
    hide Suffix;
    SuffixPush(s, c.tx, burst[..n]);
  }

  lemma SuffixDrop(s: seq<Pkt>, t: seq<Pkt>, n: nat)
    requires Suffix(s, t) && n <= |s|
    ensures Suffix(s[n..], t)
  {
    assert t[|t| - |s|..][n..] == t[|t| - |s| + n..];
  }

  /** How many packets of a burst are taken where n are wanted. */
  function Taken(n: nat, burst: seq<Pkt>): (k: nat)
    ensures k <= |burst| && k <= n && (k == n || k == |burst|)
  {
    if n < |burst| then n else |burst|
  }

  /** No buffer has come into use that was free before. */
  ghost predicate Within(refs: multiset<Pkt>, before: multiset<Pkt>) {
    forall p :: p in refs ==> p in before
  }

  lemma WithinAgain(refs: multiset<Pkt>, between: multiset<Pkt>, before: multiset<Pkt>)
    requires Within(refs, between) && Within(between, before)
    ensures Within(refs, before)
  {
  }

  lemma WithinLess(refs: multiset<Pkt>, p: Pkt, before: multiset<Pkt>)
    requires Within(refs, before)
    ensures Within(refs - multiset{p}, before)
  {
  }

  lemma WithinItself(refs: multiset<Pkt>)
    ensures Within(refs, refs)
  {
  }

  predicate Apart(s: seq<Pkt>, t: seq<Pkt>) {
    forall p :: p in s ==> p !in t
  }

  /** Every buffer in use was so before or is one of some others. */
  ghost predicate InUse(refs: multiset<Pkt>, before: multiset<Pkt>, others: seq<Pkt>) {
    forall p :: p in refs ==> p in before || p in others
  }

  lemma InUseFresh(refs: multiset<Pkt>, before: multiset<Pkt>, pkts: seq<Pkt>)
    requires refs == before + multiset(pkts)
    ensures InUse(refs, before, pkts)
  {
  }

  lemma InUseWithin(refs: multiset<Pkt>, between: multiset<Pkt>, before: multiset<Pkt>, others: seq<Pkt>)
    requires Within(refs, between) && InUse(between, before, others)
    ensures InUse(refs, before, others)
  {
  }

  lemma InUseMore(refs: multiset<Pkt>, before: multiset<Pkt>, others: seq<Pkt>, pkts: seq<Pkt>)
    requires InUse(refs, before, others)
    ensures InUse(refs + multiset(pkts), before, others + pkts)
  {
  }

  /** An offer of free buffers is still one of free buffers after a burst of other ones. */
  lemma FreeStill(offer: seq<Pkt>, other: seq<Pkt>, refs: multiset<Pkt>, before: multiset<Pkt>, pkts: seq<Pkt>)
    requires InUse(refs, before, pkts) && (forall p :: p in pkts ==> p in other)
    ensures Free(offer, before) && Apart(offer, other) ==> Free(offer, refs)
  {
  }

  /** Everything that is offered over all iterations. */
  function Offers(oracles: seq<Oracle>): seq<Pkt> {
    if oracles == [] then []
    else
      var n := |oracles| - 1;
      Offers(oracles[..n]) + oracles[n].physOffer + oracles[n].virtOffer
  }

  function PhysFronts(oracles: seq<Oracle>): seq<Pkt> {
    Concat(seq(|oracles|, i requires 0 <= i < |oracles| => Front(oracles[i].physOffer)))
  }

  function VirtFronts(oracles: seq<Oracle>): seq<Pkt> {
    Concat(seq(|oracles|, i requires 0 <= i < |oracles| => Front(oracles[i].virtOffer)))
  }

  lemma FrontsMore(oracles: seq<Oracle>, i: nat)
    requires i < |oracles|
    ensures PhysFronts(oracles[..i + 1]) == PhysFronts(oracles[..i]) + Front(oracles[i].physOffer)
    ensures VirtFronts(oracles[..i + 1]) == VirtFronts(oracles[..i]) + Front(oracles[i].virtOffer)
  {
    hide Front;
    var s, t := oracles[..i + 1], oracles[..i];
    assert seq(|s|, j requires 0 <= j < |s| => Front(s[j].physOffer))[..i]
        == seq(|t|, j requires 0 <= j < |t| => Front(t[j].physOffer));
    assert seq(|s|, j requires 0 <= j < |s| => Front(s[j].virtOffer))[..i]
        == seq(|t|, j requires 0 <= j < |t| => Front(t[j].virtOffer));
  }

  lemma NothingOffered(refs: multiset<Pkt>, before: multiset<Pkt>)
    requires refs == before
    ensures InUse(refs, before, Offers([]))
    ensures PhysFronts([]) == [] && VirtFronts([]) == []
  {
  }

  lemma OffersMore(oracles: seq<Oracle>, i: nat)
    requires i < |oracles|
    ensures Offers(oracles[..i + 1]) == Offers(oracles[..i]) + oracles[i].physOffer + oracles[i].virtOffer
  {
    assert oracles[..i + 1][..i] == oracles[..i];
  }

  lemma {:induction false} OffersFront(oracles: seq<Oracle>, i: nat)
    requires i <= |oracles|
    ensures Offers(oracles[..i]) <= Offers(oracles)
  {
    if i < |oracles| {
      var n := |oracles| - 1;
      OffersFront(oracles[..n], i);
      assert oracles[..n][..i] == oracles[..i];
    } else {
      assert oracles[..i] == oracles;
    }
  }

  lemma DistinctParts(a: seq<Pkt>, b: seq<Pkt>, c: seq<Pkt>, all: seq<Pkt>)
    requires a + b + c <= all && Distinct(all)
    ensures Distinct(b) && Distinct(c) && Apart(c, b) && Apart(b, a) && Apart(c, a)
  {
    var s := a + b + c;
    assert forall i, j :: 0 <= i < j < |s| ==> s[i] != s[j];
    forall i, j | 0 <= i < j < |b| ensures b[i] != b[j] { assert s[|a| + i] == b[i] && s[|a| + j] == b[j]; }
    forall i, j | 0 <= i < j < |c| ensures c[i] != c[j] {
      assert s[|a| + |b| + i] == c[i] && s[|a| + |b| + j] == c[j];
    }
    forall i, j | 0 <= i < |b| && 0 <= j < |a| ensures b[i] != a[j] { assert s[|a| + i] == b[i] && s[j] == a[j]; }
    forall i, j | 0 <= i < |c| && 0 <= j < |a| ensures c[i] != a[j] {
      assert s[|a| + |b| + i] == c[i] && s[j] == a[j];
    }
    forall i, j | 0 <= i < |c| && 0 <= j < |b| ensures c[i] != b[j] {
      assert s[|a| + |b| + i] == c[i] && s[|a| + j] == b[j];
    }
  }

  lemma FreePart(part: seq<Pkt>, all: seq<Pkt>, earlier: seq<Pkt>, refs: multiset<Pkt>, before: multiset<Pkt>)
    requires (forall p :: p in part ==> p in all) && Free(all, before)
    requires InUse(refs, before, earlier) && Apart(part, earlier)
    ensures Free(part, refs)
  {
  }

  /** If no buffer is offered twice, the next offers are distinct, free and disjoint. */
  lemma OffersApart(oracles: seq<Oracle>, i: nat, refs: multiset<Pkt>, before: multiset<Pkt>)
    requires i < |oracles| && InUse(refs, before, Offers(oracles[..i]))
    ensures Distinct(Offers(oracles)) && Free(Offers(oracles), before) ==>
              && Distinct(oracles[i].physOffer) && Free(oracles[i].physOffer, refs)
              && Distinct(oracles[i].virtOffer) && Free(oracles[i].virtOffer, refs)
              && Apart(oracles[i].virtOffer, oracles[i].physOffer)
  {
    hide Offers, InUse, Distinct, Free, Apart;
    var all := Offers(oracles);
    if Distinct(all) && Free(all, before) {
      var a, b, c := Offers(oracles[..i]), oracles[i].physOffer, oracles[i].virtOffer;
      OffersMore(oracles, i);
      OffersFront(oracles, i + 1);
      DistinctParts(a, b, c, all);
      InFront(a, b, c, all);
      FreePart(b, all, a, refs, before);
      FreePart(c, all, a, refs, before);
    }
  }

  lemma InFront(a: seq<Pkt>, b: seq<Pkt>, c: seq<Pkt>, all: seq<Pkt>)
    requires a + b + c <= all
    ensures forall p :: p in b || p in c ==> p in all
  {
    forall p | p in b || p in c ensures p in all { assert p in a + b + c; }
  }

  lemma InUseOffers(refs: multiset<Pkt>, start: multiset<Pkt>, before: multiset<Pkt>, oracles: seq<Oracle>, i: nat,
                    a: seq<Pkt>, b: seq<Pkt>)
    requires i < |oracles| && InUse(start, before, Offers(oracles[..i])) && InUse(refs, start, a + b)
    requires forall p :: p in a ==> p in oracles[i].physOffer
    requires forall p :: p in b ==> p in oracles[i].virtOffer
    ensures InUse(refs, before, Offers(oracles[..i + 1]))
  {
    OffersMore(oracles, i);
    hide Offers;
  }

  ghost predicate Grown(rx: seq<Pkt>, before: seq<Pkt>, more: seq<Pkt>) { rx == before + more }

  lemma GrownIs(rx: seq<Pkt>, before: seq<Pkt>, more: seq<Pkt>)
    ensures Grown(rx, before, more) <==> rx == before + more
    ensures more == [] && rx == before ==> Grown(rx, before, more)
  {
  }

  lemma GrownMore(rx: seq<Pkt>, before: seq<Pkt>, more: seq<Pkt>, burst: seq<Pkt>)
    ensures Grown(rx, before, more) ==> Grown(rx + burst, before, more + burst)
    ensures Grown(rx, before, more) && burst == [] ==> Grown(rx + burst, before, more)
  {
  }

  class Loop {
    const hasVirt: bool
    /** The reference count of every buffer. */
    var refs: multiset<Pkt>
    var ring: seq<Pkt>
    var virtQueue: seq<Pkt>
    var physQueue: seq<Pkt>
    /** References held by the loop's burst arrays. */
    ghost var local: multiset<Pkt>
    ghost var ingress: Channel
    ghost var egress: Channel
    ghost var fast: Channel

    ghost predicate Exact()
      reads this
    {
      Counted(refs, ring, virtQueue, physQueue, local)
    }

    /** Each queue holds the packets it took last; all it took before have been freed by its other end. */
    ghost predicate Tied()
      reads this`ring, this`virtQueue, this`physQueue, this`ingress, this`egress, this`fast
    {
      Suffix(ring, fast.tx) && Suffix(virtQueue, ingress.tx) && Suffix(physQueue, egress.tx)
    }

    /** The state between two iterations. */
    ghost predicate Valid()
      reads this
    {
      && Exact() && Tied() && local == multiset{}
      && Conserved(ingress) && Conserved(egress) && Conserved(fast)
      && (!hasVirt ==> ingress.tx == [])
    }

    constructor (hasVirt: bool)
      ensures this.hasVirt == hasVirt && Valid()
      ensures refs == multiset{} && ingress == egress == fast == EMPTY
    {
      this.hasVirt := hasVirt;
      refs, local := multiset{}, multiset{};
      ring, virtQueue, physQueue := [], [], [];
      ingress, egress, fast := EMPTY, EMPTY, EMPTY;
    }

    /** `rte_pktmbuf_free` by somebody who holds a reference: it can not be the free of a free buffer. */
    method Release(p: Pkt)
      requires p in refs
      modifies this`refs
      ensures refs == old(refs) - multiset{p}
    {
      refs := refs - multiset{p};
    }

    /** The ring's consumer and the NICs finish with packets at the front of their queues and free them. */
    method Interfere(o: Others)
      requires Exact() && Tied()
      modifies this`refs, this`ring, this`virtQueue, this`physQueue
      ensures Exact() && Tied()
      ensures Within(refs, old(refs))
    {
      hide Suffix, Counted, Within;
      ghost var before := refs;
      ConsumeRing(o.ring);
      ghost var consumed := refs;
      FinishVirt(o.virt);
      ghost var sent := refs;
      WithinAgain(sent, consumed, before);
      FinishPhys(o.phys);
      WithinAgain(refs, sent, before);
    }

    /** The ring's consumer takes packets and frees them. */
    method ConsumeRing(n: nat)
      requires Exact() && Tied()
      modifies this`refs, this`ring
      ensures Exact() && Tied()
      ensures Within(refs, old(refs))
      ensures ring == old(ring)[Taken(n, old(ring))..]
    {
      hide Suffix, Counted, Within;
      SuffixDrop(ring, fast.tx, Taken(n, ring));
      CountedApart(refs, ring, virtQueue, physQueue, local);
      ring := ReleaseFront(ring, n, multiset(virtQueue) + multiset(physQueue) + local);
      CountedApart(refs, ring, virtQueue, physQueue, local);
    }

    /** The virtual port has sent packets. */
    method FinishVirt(n: nat)
      requires Exact() && Tied()
      modifies this`refs, this`virtQueue
      ensures Exact() && Tied()
      ensures Within(refs, old(refs))
      ensures virtQueue == old(virtQueue)[Taken(n, old(virtQueue))..]
    {
      hide Suffix, Counted, Within;
      SuffixDrop(virtQueue, ingress.tx, Taken(n, virtQueue));
      CountedApart(refs, ring, virtQueue, physQueue, local);
      virtQueue := ReleaseFront(virtQueue, n, multiset(ring) + multiset(physQueue) + local);
      CountedApart(refs, ring, virtQueue, physQueue, local);
    }

    /** The physical port has sent packets. */
    method FinishPhys(n: nat)
      requires Exact() && Tied()
      modifies this`refs, this`physQueue
      ensures Exact() && Tied()
      ensures Within(refs, old(refs))
      ensures physQueue == old(physQueue)[Taken(n, old(physQueue))..]
    {
      hide Suffix, Counted, Within;
      SuffixDrop(physQueue, egress.tx, Taken(n, physQueue));
      CountedApart(refs, ring, virtQueue, physQueue, local);
      physQueue := ReleaseFront(physQueue, n, multiset(ring) + multiset(virtQueue) + local);
      CountedApart(refs, ring, virtQueue, physQueue, local);
    }

    method ReleaseFront(queue: seq<Pkt>, n: nat, ghost rest: multiset<Pkt>) returns (left: seq<Pkt>)
      requires refs == rest + multiset(queue)
      modifies this`refs
      ensures refs == rest + multiset(left)
      ensures left == queue[Taken(n, queue)..]
      ensures Within(refs, old(refs))
    {
      hide Within, Taken;
      var k := Taken(n, queue);
      left := queue[k..];
      FrontAndRest(rest, queue, k);
      ReleaseAll(queue[..k], rest + multiset(left));
    }

    /** `rte_eth_rx_burst`: at most 32 buffers that were free, each now with a reference count of one. */
    method RxBurst(offer: seq<Pkt>) returns (pkts: seq<Pkt>)
      requires Exact() && local == multiset{}
      modifies this`refs, this`local
      ensures Exact() && local == multiset(pkts)
      ensures |pkts| <= BURST_SIZE && Distinct(pkts)
      ensures forall p :: p in pkts ==> refs[p] == 1 && p !in old(refs)
      ensures refs == old(refs) + multiset(pkts)
      ensures Distinct(offer) && Free(offer, old(refs)) ==> pkts == Front(offer)
      ensures |pkts| < BURST_SIZE ==> forall p :: p in offer ==> p in pkts || p in old(refs)
      ensures forall p :: p in pkts ==> p in offer
    {
      hide Front, Received, Counted, Distinct, Free;
      ghost var before := refs;
      pkts := [];
      NoneReceived(before);
      var i := 0;
      assert offer[..0] == [];
      while i < |offer| && |pkts| < BURST_SIZE
        invariant 0 <= i <= |offer| && |pkts| <= BURST_SIZE
        invariant refs == before + multiset(pkts)
        invariant Received(before, pkts, offer[..i])
      {
        var p := offer[i];
        ReceivedMore(before, pkts, offer[..i], p);
        OneReceived(refs, before, pkts, p);
        assert offer[..i] + [p] == offer[..i + 1];
        if p !in refs {
          refs := refs[p := 1];
          pkts := pkts + [p];
        }
        i := i + 1;
      }
      CountedMore(before, ring, virtQueue, physQueue, pkts);
      local := multiset(pkts);
      ReceivedAll(before, pkts, offer, i);
      ReceivedCounts(before, pkts, offer[..i]);
    }

    /** `rte_pktmbuf_refcnt_update` by one for a packet that somebody holds. */
    method Retain(p: Pkt)
      requires p in refs
      modifies this`refs
      ensures refs == old(refs) + multiset{p}
      ensures Within(refs, old(refs))
    {
      refs := refs + multiset{p};
    }

    /** `rte_ring_sp_enqueue` of a packet with a reference to spare. */
    method Enqueue(p: Pkt, hasRoom: bool)
      requires Tied()
      modifies this`ring, this`fast
      ensures Tied()
      ensures fast == Pass(old(fast), [p], if hasRoom then 1 else 0)
      ensures ring == if hasRoom then old(ring) + [p] else old(ring)
    {
      hide Suffix, Pass;
      TakeOne(ring, p);
      if hasRoom {
        SuffixPass(ring, fast, [p], 1);
        fast := Pass(fast, [p], 1);
        ring := ring + [p];
      } else {
        SuffixPass(ring, fast, [p], 0);
        fast := Pass(fast, [p], 0);
      }
    }

    /**
     * The fast-path branch for one packet: one more reference, which ends up in the ring or is given back at
     * once. The loop's own reference stays.
     */
    method Duplicate(p: Pkt, hasRoom: bool)
      requires Exact() && Tied() && p in local
      modifies this`refs, this`ring, this`fast
      ensures Exact() && Tied()
      ensures fast == Pass(old(fast), [p], if hasRoom then 1 else 0)
      ensures ring == if hasRoom then old(ring) + [p] else old(ring)
      ensures refs == if hasRoom then old(refs) + multiset{p} else old(refs)
      ensures Within(refs, old(refs))
    {
      hide Suffix, Counted, Pass, Within;
      ghost var before := refs;
      WithinItself(before);
      OneMore(before, ring, virtQueue, physQueue, local, p);
      Retain(p);
      Enqueue(p, hasRoom);
      if !hasRoom {
        Release(p);
      }
    }

    method ClassifyOne(p: Pkt, i: nat, o: Oracle)
      requires Exact() && Tied() && Conserved(fast) && p in local
      modifies this`refs, this`ring, this`virtQueue, this`physQueue, this`fast
      ensures Exact() && Tied() && Conserved(fast)
      ensures Within(refs, old(refs))
      ensures fast.rx == old(fast.rx) + if o.isHft(p) then [p] else []
      ensures fast.tx == old(fast.tx) + if o.isHft(p) && o.ringHasRoom(i) then [p] else []
    {
      hide Counted, Conserved, Suffix;
      Interfere(o.others(i));
      if o.isHft(p) {
        PassConserves(fast, [p], if o.ringHasRoom(i) then 1 else 0);
        Duplicate(p, o.ringHasRoom(i));
      }
    }

    /** The ingress loop over one burst: every packet goes to the kernel array, fast-path packets are duplicated. */
    method Classify(pkts: seq<Pkt>, o: Oracle) returns (kernel: seq<Pkt>)
      requires Exact() && Tied() && Conserved(fast) && local == multiset(pkts)
      modifies this`refs, this`ring, this`virtQueue, this`physQueue, this`fast
      ensures Exact() && Tied() && Conserved(fast)
      ensures kernel == pkts
      ensures Within(refs, old(refs))
      ensures fast.rx == old(fast.rx) + HftOf(pkts, o.isHft)
      ensures fast.tx == old(fast.tx) + RingOf(pkts, o.isHft, o.ringHasRoom)
    {
      hide Counted, Conserved, Pass, Suffix;
      kernel := [];
      var i := 0;
      assert pkts[..0] == [];
      while i < |pkts|
        invariant 0 <= i <= |pkts|
        invariant kernel == pkts[..i]
        invariant Within(refs, old(refs))
        invariant Exact() && Tied() && Conserved(fast)
        invariant fast.rx == old(fast.rx) + HftOf(pkts[..i], o.isHft)
        invariant fast.tx == old(fast.tx) + RingOf(pkts[..i], o.isHft, o.ringHasRoom)
      {
        var p := pkts[i];
        assert pkts[..i + 1][..i] == pkts[..i];
        ClassifyOne(p, i, o);
        kernel := kernel + [p];
        i := i + 1;
      }
      assert pkts[..i] == pkts;
    }

    /** Frees the rest of a burst, from index n on. */
    method FreeFrom(burst: seq<Pkt>, n: nat)
      requires n <= |burst| && Exact() && local == multiset(burst[n..])
      modifies this`refs, this`local
      ensures Exact() && local == multiset{}
      ensures Within(refs, old(refs))
    {
      hide Within, Counted;
      ghost var rest := multiset(ring) + multiset(virtQueue) + multiset(physQueue);
      CountedRest(refs, ring, virtQueue, physQueue, local);
      ReleaseAll(burst[n..], rest);
      local := multiset{};
      CountedRest(refs, ring, virtQueue, physQueue, local);
    }

    /** Every packet of a list is freed, first to last. */
    method ReleaseAll(pkts: seq<Pkt>, ghost rest: multiset<Pkt>)
      requires refs == rest + multiset(pkts)
      modifies this`refs
      ensures refs == rest + multiset{}
      ensures Within(refs, old(refs))
    {
      hide Within;
      var i := 0;
      WithinItself(refs);
      assert pkts[0..] == pkts;
      while i < |pkts|
        invariant 0 <= i <= |pkts|
        invariant refs == rest + multiset(pkts[i..])
        invariant Within(refs, old(refs))
      {
        HeadOut(rest, pkts[i..]);
        assert pkts[i..][1..] == pkts[i + 1..];
        WithinLess(refs, pkts[i], old(refs));
        Release(pkts[i]);
        i := i + 1;
      }
      assert pkts[i..] == [];
    }

    /** Ingress transmit: the front of the burst is handed to the virtual port, if there is one; the rest is freed. */
    method SendToVirt(burst: seq<Pkt>, taken: nat)
      requires Exact() && Tied() && Conserved(ingress) && local == multiset(burst)
      modifies this`refs, this`local, this`virtQueue, this`ingress
      ensures Exact() && Tied() && Conserved(ingress) && local == multiset{}
      ensures Within(refs, old(refs))
      ensures var n := if hasVirt then Taken(taken, burst) else 0;
              ingress == Pass(old(ingress), burst, n) && virtQueue == old(virtQueue) + burst[..n]
    {
      hide Conserved, Suffix, Counted, Pass, Within, Taken;
      var n := if hasVirt then Taken(taken, burst) else 0;
      PassConserves(ingress, burst, n);
      SuffixPass(virtQueue, ingress, burst, n);
      HandOver(refs, ring, virtQueue, physQueue, burst, n);
      virtQueue := virtQueue + burst[..n];
      ingress := Pass(ingress, burst, n);
      local := multiset(burst[n..]);
      FreeFrom(burst, n);
    }

    /** Egress transmit, the same towards the physical port. */
    method SendToPhys(burst: seq<Pkt>, taken: nat)
      requires Exact() && Tied() && Conserved(egress) && local == multiset(burst)
      modifies this`refs, this`local, this`physQueue, this`egress
      ensures Exact() && Tied() && Conserved(egress) && local == multiset{}
      ensures Within(refs, old(refs))
      ensures egress == Pass(old(egress), burst, Taken(taken, burst))
      ensures physQueue == old(physQueue) + burst[..Taken(taken, burst)]
    {
      hide Conserved, Suffix, Counted, Pass, Within, Taken;
      var n := Taken(taken, burst);
      PassConserves(egress, burst, n);
      SuffixPass(physQueue, egress, burst, n);
      HandOver(refs, ring, virtQueue, physQueue, burst, n);
      physQueue := physQueue + burst[..n];
      egress := Pass(egress, burst, n);
      local := multiset(burst[n..]);
      FreeFrom(burst, n);
    }

    /**
     * One iteration. Whatever the classifier, the ring, the NICs and the other threads do, afterwards the loop holds
     * nothing, every reference count is its number of holders, and every packet received, and every duplicate,
     * has gone to exactly one place: a queue or a free.
     */
    method Iterate(o: Oracle) returns (fromPhys: seq<Pkt>, fromVirt: seq<Pkt>)
      requires Valid()
      modifies this
      ensures Valid()
      ensures Distinct(o.physOffer) && Free(o.physOffer, old(refs)) ==> fromPhys == Front(o.physOffer)
      ensures hasVirt && Distinct(o.virtOffer) && Free(o.virtOffer, old(refs)) && Apart(o.virtOffer, o.physOffer)
              ==> fromVirt == Front(o.virtOffer)
      ensures forall p :: p in fromPhys ==> p in o.physOffer
      ensures forall p :: p in fromVirt ==> p in o.virtOffer
      ensures |fromPhys| <= 32 && |fromVirt| <= 32 && (!hasVirt ==> fromVirt == [])
      ensures var k := if hasVirt then Taken(o.virtTaken, fromPhys) else 0;
              && ingress.rx == old(ingress.rx) + fromPhys
              && ingress.tx == old(ingress.tx) + fromPhys[..k]
              && ingress.dropped == old(ingress.dropped) + multiset(fromPhys[k..])
      ensures var k := Taken(o.physTaken, fromVirt);
              && egress.rx == old(egress.rx) + fromVirt
              && egress.tx == old(egress.tx) + fromVirt[..k]
              && egress.dropped == old(egress.dropped) + multiset(fromVirt[k..])
      ensures fast.rx == old(fast.rx) + HftOf(fromPhys, o.isHft)
      ensures fast.tx == old(fast.tx) + RingOf(fromPhys, o.isHft, o.ringHasRoom)
      ensures InUse(refs, old(refs), fromPhys + fromVirt)
    {
      hide Conserved, Counted, Distinct, Suffix, Taken, Free, Apart, Front, InUse, Within;
      ghost var before := refs;
      fromPhys := RxBurst(o.physOffer);
      InUseFresh(refs, before, fromPhys);
      var kernel := Classify(fromPhys, o);
      InUseWithin(refs, before + multiset(fromPhys), before, fromPhys);
      ghost var classified := refs;
      SendToVirt(kernel, o.virtTaken);
      InUseWithin(refs, classified, before, fromPhys);
      ghost var sent := refs;
      Interfere(o.others(BURST_SIZE));
      InUseWithin(refs, sent, before, fromPhys);
      fromVirt := [];
      assert fromPhys + fromVirt == fromPhys;
      if hasVirt {
        ghost var idle := refs;
        FreeStill(o.virtOffer, o.physOffer, idle, before, fromPhys);
        fromVirt := RxBurst(o.virtOffer);
        InUseMore(idle, before, fromPhys, fromVirt);
        ghost var taken := refs;
        Interfere(o.others(BURST_SIZE + 1));
        InUseWithin(refs, taken, before, fromPhys + fromVirt);
        ghost var waited := refs;
        SendToPhys(fromVirt, o.physTaken);
        InUseWithin(refs, waited, before, fromPhys + fromVirt);
      }
    }

    /**
     * The loop, for any number of iterations and in any environment: no buffer is leaked, freed twice or counted
     * wrongly, and once the queues have drained every buffer is free again. If the NICs offer buffers that are free
     * and never the same one twice, the loop receives exactly the front 32 of every offer, in order.
     */
    method ForwardLoop(oracles: seq<Oracle>)
      requires Valid()
      modifies this
      ensures Valid()
      ensures ring == [] && virtQueue == [] && physQueue == [] ==> refs == multiset{}
      ensures old(ingress.rx) <= ingress.rx && old(ingress.tx) <= ingress.tx
      ensures old(egress.rx) <= egress.rx && old(egress.tx) <= egress.tx
      ensures old(fast.rx) <= fast.rx && old(fast.tx) <= fast.tx
      ensures Distinct(Offers(oracles)) && Free(Offers(oracles), old(refs)) ==>
                && ingress.rx == old(ingress.rx) + PhysFronts(oracles)
                && egress.rx == old(egress.rx) + if hasVirt then VirtFronts(oracles) else []
    {
      hide Conserved, Counted, Suffix, Distinct, Free, Front, InUse, Within, Offers, PhysFronts, VirtFronts, Taken,
           HftOf, RingOf, Apart, Grown;
      ghost var before, in0, eg0 := refs, ingress.rx, egress.rx;
      ghost var separate := Distinct(Offers(oracles)) && Free(Offers(oracles), before);
      NothingOffered(refs, before);
      GrownIs(in0, in0, []);
      GrownIs(eg0, eg0, []);
      var i := 0;
      assert oracles[..0] == [];
      while i < |oracles|
        invariant 0 <= i <= |oracles|
        invariant Valid()
        invariant old(ingress.rx) <= ingress.rx && old(ingress.tx) <= ingress.tx
        invariant old(egress.rx) <= egress.rx && old(egress.tx) <= egress.tx
        invariant old(fast.rx) <= fast.rx && old(fast.tx) <= fast.tx
        invariant InUse(refs, before, Offers(oracles[..i]))
        invariant separate ==> Grown(ingress.rx, in0, PhysFronts(oracles[..i]))
        invariant separate ==> Grown(egress.rx, eg0, if hasVirt then VirtFronts(oracles[..i]) else [])
      {
        ghost var start, in1, eg1 := refs, ingress.rx, egress.rx;
        OffersApart(oracles, i, start, before);
        var a, b := Iterate(oracles[i]);
        ghost var done := refs;
        Interfere(oracles[i].others(BURST_SIZE + 2));
        InUseWithin(refs, done, start, a + b);
        InUseOffers(refs, start, before, oracles, i, a, b);
        FrontsMore(oracles, i);
        GrownMore(in1, in0, PhysFronts(oracles[..i]), a);
        GrownMore(eg1, eg0, if hasVirt then VirtFronts(oracles[..i]) else [], b);
        i := i + 1;
      }
      assert oracles[..i] == oracles;
      GrownIs(ingress.rx, in0, PhysFronts(oracles));
      GrownIs(egress.rx, eg0, if hasVirt then VirtFronts(oracles) else []);
      DrainedIsFree(refs, ring, virtQueue, physQueue);
    }
  }

  /** With nobody holding anything, no reference is left. */
  lemma DrainedIsFree(refs: multiset<Pkt>, ring: seq<Pkt>, virt: seq<Pkt>, phys: seq<Pkt>)
    requires Counted(refs, ring, virt, phys, multiset{})
    ensures ring == [] && virt == [] && phys == [] <==> refs == multiset{}
  {
    if ring != [] { assert ring[0] in refs; }
    if virt != [] { assert virt[0] in refs; }
    if phys != [] { assert phys[0] in refs; }
  }
}
