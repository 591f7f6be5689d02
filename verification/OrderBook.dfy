/** Local order books: sorted sides updated in place, and what they hold as a function of everything applied to them. */
module OrderBook {
  import opened Words

  datatype Side = Bid | Ask

  /** One level update; quantities are real numbers. */
  datatype Update = Update(price: U64, quantity: real, side: Side, isDelete: bool)
  datatype Level = Level(price: U64, size: real)

  type Levels = map<U64, real>
  datatype Book = Book(bids: Levels, asks: Levels)

  const EMPTY := Book(map[], map[])

  datatype Bbo = Bbo(bidPrice: U64, bidQty: real, askPrice: U64, askQty: real)

  // ---------- Updates ----------

  predicate Deletes(u: Update) { u.isDelete || u.quantity <= 0.0 }

  function ApplyLevel(m: Levels, u: Update): Levels {
    if Deletes(u) then m - {u.price} else m[u.price := u.quantity]
  }

  function ApplyOne(b: Book, u: Update): Book {
    if u.side == Bid then b.(bids := ApplyLevel(b.bids, u)) else b.(asks := ApplyLevel(b.asks, u))
  }

  function ApplyAll(b: Book, us: seq<Update>): Book {
    if us == [] then b else ApplyOne(ApplyAll(b, us[..|us| - 1]), us[|us| - 1])
  }

  /** A public call that changes a book. */
  datatype Call = Clear | Snapshot(updates: seq<Update>) | Batch(updates: seq<Update>) | Single(update: Update)

  function Apply(b: Book, c: Call): Book {
    match c
    case Clear => EMPTY
    case Snapshot(us) => ApplyAll(EMPTY, us)
    case Batch(us) => ApplyAll(b, us)
    case Single(u) => ApplyOne(b, u)
  }

  function After(calls: seq<Call>): Book {
    if calls == [] then EMPTY else Apply(After(calls[..|calls| - 1]), calls[|calls| - 1])
  }

  // ---------- Closed form ----------

  /** The updates of a history since its last snapshot or clear. */
  function Since(calls: seq<Call>): seq<Update> {
    if calls == [] then []
    else
      match calls[|calls| - 1]
      case Clear => []
      case Snapshot(us) => us
      case Batch(us) => Since(calls[..|calls| - 1]) + us
      case Single(u) => Since(calls[..|calls| - 1]) + [u]
  }

  /** The last of some updates that names a side and a price. */
  function LastFor(us: seq<Update>, side: Side, price: U64): Option<Update> {
    if us == [] then None
    else
      var u := us[|us| - 1];
      if u.side == side && u.price == price then Some(u) else LastFor(us[..|us| - 1], side, price)
  }

  predicate Names(u: Update, side: Side, price: U64) { u.side == side && u.price == price }

  /** That it is the last one: nothing names the level, or an update that does so and none behind it does. */
  lemma {:induction false} LastExact(us: seq<Update>, side: Side, price: U64) returns (i: int)
    ensures -1 <= i < |us| && forall j :: i < j < |us| ==> !Names(us[j], side, price)
    ensures if i == -1 then LastFor(us, side, price) == None
            else Names(us[i], side, price) && LastFor(us, side, price) == Some(us[i])
  {
    if us == [] {
      i := -1;
    } else {
      var n := |us| - 1;
      if Names(us[n], side, price) {
        i := n;
      } else {
        i := LastExact(us[..n], side, price);
        assert forall j :: 0 <= j < n ==> us[..n][j] == us[j];
      }
    }
  }

  function SideOf(b: Book, side: Side): Levels { if side == Bid then b.bids else b.asks }

  function LevelAt(b: Book, side: Side, price: U64): Option<real> {
    var m := SideOf(b, side);
    if price in m then Some(m[price]) else None
  }

  lemma {:induction false} ApplyAllAppend(b: Book, us: seq<Update>, vs: seq<Update>)
    ensures ApplyAll(b, us + vs) == ApplyAll(ApplyAll(b, us), vs)
  {
    if vs == [] {
      assert us + vs == us;
    } else {
      var n := |vs| - 1;
      ApplyAllAppend(b, us, vs[..n]);
      assert (us + vs)[..|us| + n] == us + vs[..n];
    }
  }

  /** Only the updates since the last snapshot or clear matter. */
  lemma {:induction false} DependsOnSince(calls: seq<Call>)
    ensures After(calls) == ApplyAll(EMPTY, Since(calls))
  {
    if calls != [] {
      var front, c := calls[..|calls| - 1], calls[|calls| - 1];
      DependsOnSince(front);
      match c
      case Clear =>
      case Snapshot(us) =>
      case Batch(us) => ApplyAllAppend(EMPTY, Since(front), us);
      case Single(u) =>
        ApplyAllAppend(EMPTY, Since(front), [u]);
        assert [u][..0] == [];
        assert ApplyAll(After(front), [u]) == ApplyOne(ApplyAll(After(front), []), u);
    }
  }

  lemma {:induction false} LevelIsLast(us: seq<Update>, side: Side, price: U64)
    ensures LevelAt(ApplyAll(EMPTY, us), side, price)
         == match LastFor(us, side, price)
            case None => None
            case Some(u) => if Deletes(u) then None else Some(u.quantity)
  {
    if us != [] {
      LevelIsLast(us[..|us| - 1], side, price);
    }
  }

  /**
   * Closed form: after any history a level is present exactly if its last update since the last snapshot or clear
   * is not a delete, and then with that update's quantity, which is positive.
   */
  lemma {:induction false} BookClosedForm(calls: seq<Call>, side: Side, price: U64)
    ensures var last := LastFor(Since(calls), side, price);
            && LevelAt(After(calls), side, price)
               == (if last.None? || Deletes(last.value) then None else Some(last.value.quantity))
            && (LevelAt(After(calls), side, price).Some? ==> LevelAt(After(calls), side, price).value > 0.0)
  {
    hide After, Since, ApplyAll, LastFor;
    DependsOnSince(calls);
    LevelIsLast(Since(calls), side, price);
  }

  // ---------- One call more ----------

  lemma AfterMore(calls: seq<Call>, c: Call)
    ensures After(calls + [c]) == Apply(After(calls), c)
  {
    assert (calls + [c])[..|calls|] == calls;
  }

  /** A single update changes the level it names, to its quantity or to nothing, and no other level of either side. */
  lemma SingleExact(calls: seq<Call>, u: Update, side: Side, price: U64)
    ensures LevelAt(After(calls + [Single(u)]), side, price) ==
              if side != u.side || price != u.price then LevelAt(After(calls), side, price)
              else if u.isDelete || u.quantity <= 0.0 then None
              else Some(u.quantity)
  {
    AfterMore(calls, Single(u));
    hide After;
  }

  function Singles(us: seq<Update>): (calls: seq<Call>)
    ensures |calls| == |us|
  {
    seq(|us|, i requires 0 <= i < |us| => Single(us[i]))
  }

  lemma ApplyLast(b: Book, us: seq<Update>)
    requires us != []
    ensures ApplyAll(b, us) == ApplyOne(ApplyAll(b, us[..|us| - 1]), us[|us| - 1])
  {
    hide ApplyOne;
  }

  lemma {:induction false} SinglesAre(calls: seq<Call>, us: seq<Update>)
    ensures After(calls + Singles(us)) == ApplyAll(After(calls), us)
  {
    hide ApplyOne;
    if us == [] {
      assert calls + Singles(us) == calls;
    } else {
      var n := |us| - 1;
      SinglesAre(calls, us[..n]);
      assert calls + Singles(us) == calls + Singles(us[..n]) + [Single(us[n])];
      AfterMore(calls + Singles(us[..n]), Single(us[n]));
      ApplyLast(After(calls), us);
      hide After, ApplyAll;
    }
  }

  /** A batch is its updates one by one, in order. */
  lemma BatchIsSingles(calls: seq<Call>, us: seq<Update>)
    ensures After(calls + [Batch(us)]) == After(calls + Singles(us))
  {
    AfterMore(calls, Batch(us));
    SinglesAre(calls, us);
    hide After, ApplyAll;
  }

  /** Clearing empties both sides, and a snapshot forgets everything before it: only its own updates are left. */
  lemma SnapshotForgets(calls: seq<Call>, us: seq<Update>)
    ensures After(calls + [Clear]) == After([]) == Book(map[], map[])
    ensures After(calls + [Snapshot(us)]) == After(Singles(us))
  {
    AfterMore(calls, Clear);
    AfterMore(calls, Snapshot(us));
    SinglesAre([], us);
    assert [] + Singles(us) == Singles(us);
    hide ApplyAll, Singles;
  }

  // ---------- Ways of building a batch ----------

  /** What an update does to its side: the price, and the new quantity unless it deletes. */
  function Effect(u: Update): (U64, Option<real>) {
    (u.price, if Deletes(u) then None else Some(u.quantity))
  }

  function Effects(us: seq<Update>, side: Side): seq<(U64, Option<real>)> {
    if us == [] then []
    else Effects(us[..|us| - 1], side) + if us[|us| - 1].side == side then [Effect(us[|us| - 1])] else []
  }

  function ApplyEffect(m: Levels, e: (U64, Option<real>)): Levels {
    if e.1.None? then m - {e.0} else m[e.0 := e.1.value]
  }

  function ApplyEffects(m: Levels, es: seq<(U64, Option<real>)>): Levels {
    if es == [] then m else ApplyEffect(ApplyEffects(m, es[..|es| - 1]), es[|es| - 1])
  }

  lemma OneEffect(b: Book, u: Update, side: Side)
    ensures SideOf(ApplyOne(b, u), side)
         == if u.side == side then ApplyEffect(SideOf(b, side), Effect(u)) else SideOf(b, side)
  {
  }

  lemma EffectsStep(m: Levels, es: seq<(U64, Option<real>)>, e: (U64, Option<real>))
    ensures ApplyEffects(m, es + [e]) == ApplyEffect(ApplyEffects(m, es), e)
  {
    hide ApplyEffect;
    assert (es + [e])[..|es|] == es;
  }

  lemma {:induction false} SideByEffects(b: Book, us: seq<Update>, side: Side)
    ensures SideOf(ApplyAll(b, us), side) == ApplyEffects(SideOf(b, side), Effects(us, side))
  {
    hide ApplyOne, ApplyEffect, Effect, SideOf;
    if us != [] {
      var front, u := us[..|us| - 1], us[|us| - 1];
      SideByEffects(b, front, side);
      OneEffect(ApplyAll(b, front), u, side);
      EffectsStep(SideOf(b, side), Effects(front, side), Effect(u));
      assert Effects(front, side) + [] == Effects(front, side);
    }
  }

  /** Batches with the same effects on each side, however the sides are interleaved, give the same book. */
  lemma {:induction false} SameEffects(b: Book, us: seq<Update>, vs: seq<Update>)
    requires forall side :: Effects(us, side) == Effects(vs, side)
    ensures ApplyAll(b, us) == ApplyAll(b, vs)
  {
    hide Effects, ApplyEffects, ApplyAll;
    SideByEffects(b, us, Bid);
    SideByEffects(b, us, Ask);
    SideByEffects(b, vs, Bid);
    SideByEffects(b, vs, Ask);
  }

  /** The updates that `OrderBookManager::apply_update` makes of one side's levels. */
  function FromLevels(levels: seq<Level>, side: Side): seq<Update> {
    if levels == [] then []
    else
      var l := levels[|levels| - 1];
      FromLevels(levels[..|levels| - 1], side) + [Update(l.price, l.size, side, l.size <= 0.0)]
  }

  /** The levels of one side that a list of updates carries, in order. */
  function LevelsOf(us: seq<Update>, side: Side): seq<Level> {
    if us == [] then []
    else
      var u := us[|us| - 1];
      LevelsOf(us[..|us| - 1], side) + if u.side == side then [Level(u.price, u.quantity)] else []
  }

  function EffectsOf(levels: seq<Level>): seq<(U64, Option<real>)> {
    if levels == [] then []
    else
      var l := levels[|levels| - 1];
      EffectsOf(levels[..|levels| - 1]) + [(l.price, if l.size <= 0.0 then None else Some(l.size))]
  }

  lemma EffectsOfStep(levels: seq<Level>, l: Level)
    ensures EffectsOf(levels + [l]) == EffectsOf(levels) + [(l.price, if l.size <= 0.0 then None else Some(l.size))]
  {
    assert (levels + [l])[..|levels|] == levels;
  }

  lemma {:induction false} EffectsByLevels(us: seq<Update>, side: Side)
    requires forall u :: u in us && u.isDelete ==> u.quantity <= 0.0
    ensures Effects(us, side) == EffectsOf(LevelsOf(us, side))
  {
    if us != [] {
      var front, u := us[..|us| - 1], us[|us| - 1];
      EffectsByLevels(front, side);
      var ls := LevelsOf(front, side);
      EffectsOfStep(ls, Level(u.price, u.quantity));
      assert u in us;
      assert ls + [] == ls && Effects(front, side) + [] == Effects(front, side);
    }
  }

  lemma LevelsOfStep(us: seq<Update>, u: Update, side: Side)
    ensures LevelsOf(us + [u], side)
         == LevelsOf(us, side) + if u.side == side then [Level(u.price, u.quantity)] else []
  {
    assert (us + [u])[..|us|] == us;
  }

  lemma {:induction false} FromLevelsBack(levels: seq<Level>, side: Side, other: Side)
    ensures LevelsOf(FromLevels(levels, side), other) == if side == other then levels else []
    ensures forall u :: u in FromLevels(levels, side) && u.isDelete ==> u.quantity <= 0.0
  {
    hide LevelsOf;
    if levels == [] {
      NoLevels(other);
    } else {
      var front, l := levels[..|levels| - 1], levels[|levels| - 1];
      FromLevelsBack(front, side, other);
      var us, u := FromLevels(front, side), Update(l.price, l.size, side, l.size <= 0.0);
      LevelsOfStep(us, u, other);
      assert levels == front + [l];
    }
  }

  lemma NoLevels(side: Side)
    ensures LevelsOf([], side) == []
  {
  }

  lemma {:induction false} LevelsOfAppend(us: seq<Update>, vs: seq<Update>, side: Side)
    ensures LevelsOf(us + vs, side) == LevelsOf(us, side) + LevelsOf(vs, side)
  {
    if vs == [] {
      assert us + vs == us;
    } else {
      var n := |vs| - 1;
      LevelsOfAppend(us, vs[..n], side);
      assert (us + vs)[..|us| + n] == us + vs[..n];
    }
  }

  /** `OrderBookManager::apply_update`: the bids as updates, then the asks. */
  function BatchOf(bids: seq<Level>, asks: seq<Level>): seq<Update> {
    FromLevels(bids, Bid) + FromLevels(asks, Ask)
  }

  /** The parser's updates, whose delete flag is only set for a quantity of exactly zero. */
  function ParserUpdate(l: Level, side: Side): Update {
    Update(l.price, l.size, side, l.size == 0.0)
  }

  /**
   * The ingestion paths agree: a list of updates, with the sides interleaved in any way and the delete flag set by
   * either rule, gives the same book as the manager's batch of the same levels, even for negative quantities.
   */
  lemma {:induction false} IngestionAgrees(b: Book, us: seq<Update>, bids: seq<Level>, asks: seq<Level>)
    requires LevelsOf(us, Bid) == bids && LevelsOf(us, Ask) == asks
    requires forall u :: u in us ==>
               u == ParserUpdate(Level(u.price, u.quantity), u.side) || (u.isDelete <==> u.quantity <= 0.0)
    ensures ApplyAll(b, us) == ApplyAll(b, BatchOf(bids, asks))
  {
    hide LevelsOf, FromLevels, ApplyAll, Effects, EffectsOf;
    var vs := BatchOf(bids, asks);
    forall side ensures Effects(us, side) == Effects(vs, side) {
      FromLevelsBack(bids, Bid, side);
      FromLevelsBack(asks, Ask, side);
      LevelsOfAppend(FromLevels(bids, Bid), FromLevels(asks, Ask), side);
      assert bids + [] == bids && [] + asks == asks;
      assert LevelsOf(vs, side) == LevelsOf(us, side);
      EffectsByLevels(us, side);
      EffectsByLevels(vs, side);
    }
    SameEffects(b, us, vs);
  }

  // ---------- Sorted sides ----------

  /** The order of a side's ordered map: bids from the greatest price down, asks from the least price up. */
  predicate Before(side: Side, p: U64, q: U64) { if side == Bid then p > q else p < q }

  predicate Ordered(side: Side, s: seq<Level>) {
    forall i, j :: 0 <= i < j < |s| ==> Before(side, s[i].price, s[j].price)
  }

  /** The map that a sorted side represents. */
  function ToMap(side: Side, s: seq<Level>): Levels
    requires Ordered(side, s)
  {
    map i | 0 <= i < |s| :: s[i].price := s[i].size
  }

  /** Binary search for the first level that does not come before a price. */
  method LowerBound(side: Side, s: seq<Level>, price: U64) returns (i: nat)
    requires Ordered(side, s)
    ensures i <= |s|
    ensures forall j :: 0 <= j < i ==> Before(side, s[j].price, price)
    ensures forall j :: i <= j < |s| ==> !Before(side, s[j].price, price)
  {
    i := 0;
    var end := |s|;
    while i < end
      invariant 0 <= i <= end <= |s|
      invariant forall j :: 0 <= j < i ==> Before(side, s[j].price, price)
      invariant forall j :: end <= j < |s| ==> !Before(side, s[j].price, price)
    {
      var mid := (i + end) / 2;
      if Before(side, s[mid].price, price) {
        i := mid + 1;
      } else {
        end := mid;
      }
    }
  }

  method InsertOrAssign(side: Side, s: seq<Level>, price: U64, size: real) returns (r: seq<Level>)
    requires Ordered(side, s)
    ensures Ordered(side, r) && ToMap(side, r) == ToMap(side, s)[price := size]
  {
    var i := LowerBound(side, s, price);
    if i < |s| && s[i].price == price {
      r := s[i := Level(price, size)];
      AssignAt(side, s, i, size);
    } else {
      r := s[..i] + [Level(price, size)] + s[i..];
      InsertAt(side, s, i, price, size);
    }
  }

  method Erase(side: Side, s: seq<Level>, price: U64) returns (r: seq<Level>)
    requires Ordered(side, s)
    ensures Ordered(side, r) && ToMap(side, r) == ToMap(side, s) - {price}
  {
    var i := LowerBound(side, s, price);
    if i < |s| && s[i].price == price {
      r := s[..i] + s[i + 1..];
      EraseAt(side, s, i);
    } else {
      r := s;
      AbsentAt(side, s, i, price);
    }
  }

  lemma InMap(side: Side, s: seq<Level>, j: nat)
    requires Ordered(side, s) && j < |s|
    ensures s[j].price in ToMap(side, s) && ToMap(side, s)[s[j].price] == s[j].size
  {
  }

  lemma InSide(side: Side, s: seq<Level>, p: U64) returns (j: nat)
    requires Ordered(side, s) && p in ToMap(side, s)
    ensures j < |s| && s[j].price == p && ToMap(side, s)[p] == s[j].size
  {
    j :| j < |s| && s[j].price == p;
  }

  /** Two maps agree on a key. */
  predicate SameAt(m: Levels, n: Levels, k: U64) {
    (k in m <==> k in n) && (k in m && k in n ==> m[k] == n[k])
  }

  lemma SameMaps(m: Levels, n: Levels)
    requires forall k: U64 :: SameAt(m, n, k)
    ensures m == n
  {
    assert forall k :: k in m.Keys ==> SameAt(m, n, k);
    assert forall k :: k in n.Keys ==> SameAt(m, n, k);
  }

  lemma AssignKey(side: Side, s: seq<Level>, r: seq<Level>, i: nat, k: U64)
    requires i < |s| == |r| && Ordered(side, s) && Ordered(side, r)
    requires r[i].price == s[i].price && forall j :: 0 <= j < |s| && j != i ==> r[j] == s[j]
    ensures SameAt(ToMap(side, r), ToMap(side, s)[r[i].price := r[i].size], k)
  {
    hide ToMap, Ordered;
    InMap(side, r, i);
    if k != r[i].price {
      if k in ToMap(side, r) { var j := InSide(side, r, k); InMap(side, s, j); }
      if k in ToMap(side, s) { var j := InSide(side, s, k); InMap(side, r, j); }
    }
  }

  lemma AssignAt(side: Side, s: seq<Level>, i: nat, size: real)
    requires Ordered(side, s) && i < |s|
    ensures var r := s[i := Level(s[i].price, size)];
            Ordered(side, r) && ToMap(side, r) == ToMap(side, s)[s[i].price := size]
  {
    var r := s[i := Level(s[i].price, size)];
    assert forall j :: 0 <= j < |s| ==> r[j].price == s[j].price;
    assert Ordered(side, r);
    hide *;
    var m, n := ToMap(side, r), ToMap(side, s)[s[i].price := size];
    forall k: U64 ensures SameAt(m, n, k) {
      AssignKey(side, s, r, i, k);
    }
    SameMaps(m, n);
  }

  lemma InsertKey(side: Side, s: seq<Level>, i: nat, x: Level, k: U64)
    requires i <= |s|
    requires var r := s[..i] + [x] + s[i..]; Ordered(side, s) && Ordered(side, r)
    ensures SameAt(ToMap(side, s[..i] + [x] + s[i..]), ToMap(side, s)[x.price := x.size], k)
  {
    hide ToMap, Ordered;
    var r := s[..i] + [x] + s[i..];
    InMap(side, r, i);
    if k != x.price {
      if k in ToMap(side, r) {
        var j := InSide(side, r, k);
        InMap(side, s, if j < i then j else j - 1);
      }
      if k in ToMap(side, s) {
        var j := InSide(side, s, k);
        InMap(side, r, if j < i then j else j + 1);
      }
    }
  }

  lemma InsertAt(side: Side, s: seq<Level>, i: nat, price: U64, size: real)
    requires Ordered(side, s) && i <= |s|
    requires forall j :: 0 <= j < i ==> Before(side, s[j].price, price)
    requires forall j :: i <= j < |s| ==> Before(side, price, s[j].price)
    ensures var r := s[..i] + [Level(price, size)] + s[i..];
            Ordered(side, r) && ToMap(side, r) == ToMap(side, s)[price := size]
  {
    var r := s[..i] + [Level(price, size)] + s[i..];
    assert Ordered(side, r);
    hide *;
    var m, n := ToMap(side, r), ToMap(side, s)[price := size];
    forall k: U64 ensures SameAt(m, n, k) {
      InsertKey(side, s, i, Level(price, size), k);
    }
    SameMaps(m, n);
  }

  lemma EraseKey(side: Side, s: seq<Level>, i: nat, k: U64)
    requires i < |s|
    requires var r := s[..i] + s[i + 1..]; Ordered(side, s) && Ordered(side, r)
    requires forall j :: 0 <= j < |s| && j != i ==> s[j].price != s[i].price
    ensures SameAt(ToMap(side, s[..i] + s[i + 1..]), ToMap(side, s) - {s[i].price}, k)
  {
    hide ToMap, Ordered;
    var r := s[..i] + s[i + 1..];
    if k in ToMap(side, r) {
      var j := InSide(side, r, k);
      InMap(side, s, if j < i then j else j + 1);
    }
    if k in ToMap(side, s) && k != s[i].price {
      var j := InSide(side, s, k);
      InMap(side, r, if j < i then j else j - 1);
    }
  }

  lemma EraseAt(side: Side, s: seq<Level>, i: nat)
    requires Ordered(side, s) && i < |s|
    ensures var r := s[..i] + s[i + 1..];
            Ordered(side, r) && ToMap(side, r) == ToMap(side, s) - {s[i].price}
  {
    var r := s[..i] + s[i + 1..];
    assert Ordered(side, r);
    assert forall j :: 0 <= j < |s| && j != i ==> s[j].price != s[i].price;
    hide *;
    var m, n := ToMap(side, r), ToMap(side, s) - {s[i].price};
    forall k: U64 ensures SameAt(m, n, k) {
      EraseKey(side, s, i, k);
    }
    SameMaps(m, n);
  }

  lemma AbsentAt(side: Side, s: seq<Level>, i: nat, price: U64)
    requires Ordered(side, s) && i <= |s|
    requires forall j :: 0 <= j < i ==> Before(side, s[j].price, price)
    requires forall j :: i <= j < |s| ==> Before(side, price, s[j].price)
    ensures ToMap(side, s) == ToMap(side, s) - {price}
  {
  }

  // ---------- The best prices ----------

  predicate Greatest(s: set<U64>, k: U64) { k in s && forall x :: x in s ==> x <= k }
  predicate Least(s: set<U64>, k: U64) { k in s && forall x :: x in s ==> k <= x }

  /** What `get_bbo` is for: the greatest bid and the least ask with their quantities, if both sides have a level. */
  ghost predicate IsBbo(b: Book, r: Option<Bbo>) {
    && (r.None? <==> b.bids == map[] || b.asks == map[])
    && (r.Some? ==>
          && Greatest(b.bids.Keys, r.value.bidPrice) && b.bids[r.value.bidPrice] == r.value.bidQty
          && Least(b.asks.Keys, r.value.askPrice) && b.asks[r.value.askPrice] == r.value.askQty)
  }

  /** The last update of a level since the last snapshot or clear sets it. */
  ghost predicate Live(calls: seq<Call>, side: Side, price: U64) {
    var last := LastFor(Since(calls), side, price);
    last.Some? && !Deletes(last.value)
  }

  lemma LiveIsPresent(calls: seq<Call>, side: Side, price: U64)
    ensures price in SideOf(After(calls), side) <==> Live(calls, side, price)
    ensures Live(calls, side, price) ==>
              SideOf(After(calls), side)[price] == LastFor(Since(calls), side, price).value.quantity
  {
    hide After, Since, LastFor;
    BookClosedForm(calls, side, price);
  }

  /**
   * The best prices of a history: the greatest bid price and the least ask price whose last update since the last
   * snapshot or clear does not delete it, with the quantities of those updates; nothing exactly if a side has none.
   */
  ghost predicate BestOf(calls: seq<Call>, r: Option<Bbo>) {
    && (r.None? <==> (forall p: U64 :: !Live(calls, Bid, p)) || (forall p: U64 :: !Live(calls, Ask, p)))
    && (r.Some? ==>
          && Live(calls, Bid, r.value.bidPrice) && (forall p: U64 :: Live(calls, Bid, p) ==> p <= r.value.bidPrice)
          && Live(calls, Ask, r.value.askPrice) && (forall p: U64 :: Live(calls, Ask, p) ==> p >= r.value.askPrice)
          && r.value.bidQty == LastFor(Since(calls), Bid, r.value.bidPrice).value.quantity
          && r.value.askQty == LastFor(Since(calls), Ask, r.value.askPrice).value.quantity)
  }

  /** The first entries of a book's sides are the best prices of everything applied to it. */
  lemma {:induction false} BboOfHistory(calls: seq<Call>, r: Option<Bbo>)
    requires IsBbo(After(calls), r)
    ensures BestOf(calls, r)
  {
    hide After, Live;
    forall side: Side, p: U64
      ensures p in SideOf(After(calls), side) <==> Live(calls, side, p)
    {
      LiveIsPresent(calls, side, p);
    }
    NonEmpty(After(calls).bids);
    NonEmpty(After(calls).asks);
    if r.Some? {
      LiveIsPresent(calls, Bid, r.value.bidPrice);
      LiveIsPresent(calls, Ask, r.value.askPrice);
    }
  }

  lemma NonEmpty(m: Levels)
    ensures m == map[] <==> forall p: U64 :: p !in m
  {
    if m != map[] {
      var p :| p in m.Keys;
    }
  }

  /** The book of a key on a shelf of books; one that does not exist yet is empty. */
  function Lookup(shelf: map<Key, Book>, k: Key): Book {
    if k in shelf then shelf[k] else EMPTY
  }

  /** Only one key's book changed, as a call changes it. */
  ghost predicate OnlyChanged(before: map<Key, Book>, after: map<Key, Book>, k: Key, c: Call) {
    && Lookup(after, k) == Apply(Lookup(before, k), c)
    && forall l :: l != k ==> Lookup(after, l) == Lookup(before, l)
  }

  class OrderBook {
    var bids: seq<Level>
    var asks: seq<Level>
    /** Every public call so far that changes the book. */
    ghost var calls: seq<Call>

    ghost predicate Sorted()
      reads this`bids, this`asks
    {
      Ordered(Bid, bids) && Ordered(Ask, asks)
    }

    ghost function View(): Book
      requires Sorted()
      reads this`bids, this`asks
    {
      Book(ToMap(Bid, bids), ToMap(Ask, asks))
    }

    /** Both sides are sorted, and the book is what the calls make of an empty one. */
    ghost predicate Valid()
      reads this
    {
      Sorted() && View() == After(calls)
    }

    constructor ()
      ensures Valid() && calls == []
    {
      bids, asks, calls := [], [], [];
    }

    method ClearBook()
      modifies this
      ensures Valid() && calls == old(calls) + [Clear] && View() == EMPTY
    {
      bids := [];
      asks := [];
      AfterMore(calls, Clear);
      calls := calls + [Clear];
    }

    method ApplyUpdateInternal(u: Update)
      requires Sorted()
      modifies this`bids, this`asks
      ensures Sorted() && View() == ApplyOne(old(View()), u)
    {
      hide Ordered, ToMap;
      var isDelete := u.isDelete || u.quantity <= 0.0;
      if u.side == Bid {
        if isDelete {
          bids := Erase(Bid, bids, u.price);
        } else {
          bids := InsertOrAssign(Bid, bids, u.price, u.quantity);
        }
      } else {
        if isDelete {
          asks := Erase(Ask, asks, u.price);
        } else {
          asks := InsertOrAssign(Ask, asks, u.price, u.quantity);
        }
      }
    }

    /** The loop that both batch calls share. */
    method ApplyEach(us: seq<Update>)
      requires Sorted()
      modifies this`bids, this`asks
      ensures Sorted() && View() == ApplyAll(old(View()), us)
    {
      hide Ordered, ToMap;
      var i := 0;
      assert us[..0] == [];
      while i < |us|
        invariant 0 <= i <= |us|
        invariant Sorted() && View() == ApplyAll(old(View()), us[..i])
      {
        assert us[..i + 1][..i] == us[..i];
        ApplyUpdateInternal(us[i]);
        i := i + 1;
      }
      assert us[..i] == us;
    }

    method ApplyUpdate(u: Update)
      requires Valid()
      modifies this
      ensures Valid() && calls == old(calls) + [Single(u)] && View() == Apply(old(View()), Single(u))
    {
      hide Ordered, ToMap, After;
      AfterMore(calls, Single(u));
      ApplyUpdateInternal(u);
      calls := calls + [Single(u)];
    }

    method ApplyUpdates(us: seq<Update>)
      requires Valid()
      modifies this
      ensures Valid() && calls == old(calls) + [Batch(us)] && View() == Apply(old(View()), Batch(us))
    {
      hide Ordered, ToMap, After;
      AfterMore(calls, Batch(us));
      ApplyEach(us);
      calls := calls + [Batch(us)];
    }

    method ApplySnapshot(us: seq<Update>)
      requires Valid()
      modifies this
      ensures Valid() && calls == old(calls) + [Snapshot(us)] && View() == Apply(old(View()), Snapshot(us))
    {
      AfterMore(calls, Snapshot(us));
      bids := [];
      asks := [];
      ApplyEach(us);
      calls := calls + [Snapshot(us)];
    }

    /** The first entries of the two sorted sides: the best prices of everything applied so far. */
    method GetBbo() returns (r: Option<Bbo>)
      requires Valid()
      ensures IsBbo(View(), r) && BestOf(calls, r)
    {
      r := FirstEntries();
      BboOfHistory(calls, r);
    }

    method FirstEntries() returns (r: Option<Bbo>)
      requires Sorted()
      ensures IsBbo(View(), r)
    {
      if bids == [] {
        return None;
      }
      assert bids[0].price in ToMap(Bid, bids);
      if asks == [] {
        return None;
      }
      assert asks[0].price in ToMap(Ask, asks);
      r := Some(Bbo(bids[0].price, bids[0].size, asks[0].price, asks[0].size));
    }
  }

  type Key = (Byte, string)

  /** Books by exchange and instrument, created when first asked for. */
  class OrderBookManager {
    var books: map<Key, OrderBook>

    ghost function Repr(): set<OrderBook>
      reads this
    {
      set k | k in books :: books[k]
    }

    /** Every book is held under one key only, and its sides are sorted. */
    ghost predicate Valid()
      reads this, Repr()
    {
      && (forall k, l :: k in books && l in books && k != l ==> books[k] != books[l])
      && (forall k :: k in books ==> books[k].Valid())
    }

    ghost function Shelf(): map<Key, Book>
      requires Valid()
      reads this, Repr()
    {
      map k | k in books :: books[k].View()
    }

    constructor ()
      ensures Valid() && books == map[]
    {
      books := map[];
    }

    method GetBook(k: Key) returns (book: OrderBook)
      requires Valid()
      modifies this
      ensures Valid() && k in books && books[k] == book
      ensures if k in old(books) then books == old(books)
              else fresh(book) && book.Valid() && book.calls == [] && book.View() == EMPTY
                   && books == old(books)[k := book]
      ensures forall l :: Lookup(Shelf(), l) == Lookup(old(Shelf()), l)
    {
      hide Ordered, ToMap;
      if k in books {
        return books[k];
      }
      book := new OrderBook();
      books := books[k := book];
    }

    /** Updates go to the book of their key and to no other. */
    method ApplyUpdates(k: Key, us: seq<Update>, isSnapshot: bool)
      requires Valid()
      modifies this, Repr()
      ensures Valid()
      ensures OnlyChanged(old(Shelf()), Shelf(), k, if isSnapshot then Snapshot(us) else Batch(us))
    {
      hide Ordered, ToMap, After, Apply;
      var book := GetBook(k);
      ApplyToBook(k, us, isSnapshot);
    }

    method ApplyToBook(k: Key, us: seq<Update>, isSnapshot: bool)
      requires Valid() && k in books
      modifies books[k]
      ensures Valid()
      ensures OnlyChanged(old(Shelf()), Shelf(), k, if isSnapshot then Snapshot(us) else Batch(us))
    {
      hide Ordered, ToMap, After, Apply;
      if isSnapshot {
        books[k].ApplySnapshot(us);
      } else {
        books[k].ApplyUpdates(us);
      }
    }

    method AppendLevels(us: seq<Update>, levels: seq<Level>, side: Side) returns (r: seq<Update>)
      ensures r == us + FromLevels(levels, side)
    {
      r := us;
      var i := 0;
      assert levels[..0] == [];
      while i < |levels|
        invariant 0 <= i <= |levels|
        invariant r == us + FromLevels(levels[..i], side)
      {
        assert levels[..i + 1][..i] == levels[..i];
        r := r + [Update(levels[i].price, levels[i].size, side, levels[i].size <= 0.0)];
        i := i + 1;
      }
      assert levels[..i] == levels;
    }

    method ApplyUpdate(k: Key, bids: seq<Level>, asks: seq<Level>, isSnapshot: bool)
      requires Valid()
      modifies this, Repr()
      ensures Valid()
      ensures var batch := BatchOf(bids, asks);
              OnlyChanged(old(Shelf()), Shelf(), k, if isSnapshot then Snapshot(batch) else Batch(batch))
    {
      hide Ordered, ToMap, OnlyChanged;
      var updates := AppendLevels([], bids, Bid);
      updates := AppendLevels(updates, asks, Ask);
      assert updates == BatchOf(bids, asks);
      ApplyUpdates(k, updates, isSnapshot);
    }

    /** The best prices of a key; asking creates the book but changes what no key holds. */
    method GetBestPrices(k: Key) returns (r: Option<Bbo>)
      requires Valid()
      modifies this
      ensures Valid()
      ensures forall l :: Lookup(Shelf(), l) == Lookup(old(Shelf()), l)
      ensures IsBbo(Lookup(Shelf(), k), r) && k in books && BestOf(books[k].calls, r)
    {
      hide Ordered, ToMap, IsBbo, BestOf;
      var book := GetBook(k);
      r := book.GetBbo();
    }
  }
}
