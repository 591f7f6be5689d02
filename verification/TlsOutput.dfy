/** The output of the TLS library: what the handshake and `encrypt` put into it, and when it is drained to TCP. */
module TlsOutput {
  import opened Words
  import opened MicroTcp
  import opened TlsRecords

  /** One `send_data` call: its bytes and what the allocation met. */
  datatype Write = Write(data: Chunk, a: Alloc)

  /** One message put through `encrypt`: whether it succeeded, the bytes it left, and what its allocation met. */
  datatype Frame = Frame(ok: bool, record: seq<Byte>, a: Alloc)

  /**
   * The TLS library in one call of `process_rx`: the results of the `do_handshake` calls and the bytes each of them
   * adds to the output; what the allocations of the drains meet, before each record and after each call; the encryption
   * of the upgrade requests made inside the feed loop and after the last call; and what `decrypt` adds to the output.
   */
  datatype Turn = Turn(hs: Oracle, made: nat -> seq<Byte>, pre: nat -> Alloc, post: nat -> Alloc,
                       first: Frame, second: Frame, reply: seq<Byte>)

  // ---------- Pieces of output ----------

  /** What some output is part of: the TLS protocol itself, an upgrade request, a text frame, a close frame. */
  datatype Kind = Protocol | Upgrade | Message | Close

  type Bytes = s: seq<Byte> | s != [] witness [0]

  datatype Piece = Piece(kind: Kind, bytes: Bytes)

  function Pieces(kind: Kind, bytes: seq<Byte>): (ps: seq<Piece>) {
    if bytes == [] then [] else [Piece(kind, bytes)]
  }

  /** The bytes of some pieces, in order. */
  function Flat(ps: seq<Piece>): seq<Byte> {
    if ps == [] then [] else Flat(ps[..|ps| - 1]) + ps[|ps| - 1].bytes
  }

  function Upgrades(ps: seq<Piece>): nat {
    if ps == [] then 0 else Upgrades(ps[..|ps| - 1]) + if ps[|ps| - 1].kind == Upgrade then 1 else 0
  }

  lemma {:induction false} FlatAppend(ps: seq<Piece>, more: seq<Piece>)
    ensures Flat(ps + more) == Flat(ps) + Flat(more)
  {
    if more == [] {
      assert ps + more == ps;
    } else {
      var n := |more| - 1;
      FlatAppend(ps, more[..n]);
      assert (ps + more)[..|ps| + n] == ps + more[..n] && (ps + more)[|ps| + n] == more[n];
      var x := more[n].bytes;
      assert Flat(ps) + (Flat(more[..n]) + x) == Flat(ps) + Flat(more[..n]) + x;
    }
  }

  lemma {:induction false} UpgradesAppend(ps: seq<Piece>, more: seq<Piece>)
    ensures Upgrades(ps + more) == Upgrades(ps) + Upgrades(more)
  {
    if more == [] {
      assert ps + more == ps;
    } else {
      var n := |more| - 1;
      UpgradesAppend(ps, more[..n]);
      assert (ps + more)[..|ps| + n] == ps + more[..n];
    }
  }

  lemma PiecesAre(kind: Kind, bytes: seq<Byte>)
    ensures Flat(Pieces(kind, bytes)) == bytes
    ensures Upgrades(Pieces(kind, bytes)) == if kind == Upgrade && bytes != [] then 1 else 0
  {
    if bytes != [] {
      assert [Piece(kind, bytes)][..0] == [];
    }
  }

  /** There are bytes exactly if there are pieces. */
  lemma FlatEmpty(ps: seq<Piece>)
    ensures Flat(ps) == [] <==> ps == []
  {
  }

  // ---------- The library's output and the writes made with it ----------

  /** Everything ever put into the output, everything drained from it, and what is left in it. */
  datatype Lib = Lib(generated: seq<Piece>, handed: seq<Piece>, output: seq<Piece>)

  /** The output, and the `send_data` calls made so far in one call of the client. */
  datatype Flow = Flow(lib: Lib, writes: seq<Write>)

  function Push(f: Flow, kind: Kind, bytes: seq<Byte>): Flow {
    var l, ps := f.lib, Pieces(kind, bytes);
    Flow(Lib(l.generated + ps, l.handed, l.output + ps), f.writes)
  }

  /** The length argument of `send_data` has 16 bits; of a longer drain only so many bytes are sent. */
  function Cut16(s: seq<Byte>): (t: Chunk)
    ensures t <= s && |t| == |s| % 0x1_0000
  {
    s[..|s| % 0x1_0000]
  }

  /** A drain: `read_encrypted` hands over everything that is pending, in one piece, and then reports nothing. */
  function Flush(f: Flow, a: Alloc): Flow {
    var l := f.lib;
    if l.output == [] then f
    else Flow(Lib(l.generated, l.handed + l.output, []), f.writes + [Write(Cut16(Flat(l.output)), a)])
  }

  /**
   * A message through `encrypt`, which leaves its output in the library and the vector handed to `send_data` empty:
   * what is written to TCP at once is an empty segment.
   */
  function Encrypt(f: Flow, kind: Kind, x: Frame): Flow {
    var g := Push(f, kind, x.record);
    if x.ok then Flow(g.lib, g.writes + [Write([], x.a)]) else g
  }

  /** The k-th `do_handshake` call of a turn and the drain after it. */
  function Call(f: Flow, turn: Turn, k: nat): Flow {
    Flush(Push(f, Protocol, turn.made(k)), turn.post(k))
  }

  /** Calls k to m - 1. */
  function Calls(f: Flow, turn: Turn, k: nat, m: nat): Flow {
    if m <= k then f else Call(Calls(f, turn, k, m - 1), turn, m - 1)
  }

  /** Record n (counted from 0): a drain before it is fed, then the calls that pump the handshake. */
  function Record(f: Flow, turn: Turn, n: nat): Flow {
    Calls(Flush(f, turn.pre(n)), turn, CallsAfter(turn.hs, n), CallsAfter(turn.hs, n + 1))
  }

  function Feeds(f: Flow, turn: Turn, n: nat): Flow {
    if n == 0 then f else Record(Feeds(f, turn, n - 1), turn, n - 1)
  }

  /** The feed loop saw the handshake complete. */
  predicate InFeed(data: seq<Byte>, turn: Turn) {
    Outcome(data, turn.hs, 0, 0).done
  }

  /** The number of the `do_handshake` call after the feed loop. */
  function LastIndex(data: seq<Byte>, turn: Turn): nat {
    CallsAfter(turn.hs, Outcome(data, turn.hs, 0, 0).records)
  }

  function LastCall(data: seq<Byte>, turn: Turn): Handshake {
    turn.hs(LastIndex(data, turn))
  }

  /** The feed loop, and the upgrade request if the handshake completes in it. */
  function FeedPart(f: Flow, data: seq<Byte>, turn: Turn): Flow {
    var g := Feeds(f, turn, Outcome(data, turn.hs, 0, 0).records);
    if InFeed(data, turn) then Encrypt(g, Upgrade, turn.first) else g
  }

  /** The call after the feed loop, and the upgrade request if the handshake is complete. */
  function LastPart(f: Flow, turn: Turn, k: nat): Flow {
    var g := Call(f, turn, k);
    if turn.hs(k) == Done then Encrypt(g, Upgrade, turn.second) else g
  }

  /** The WS_CONNECTING_TLS case. */
  function TlsFlow(l: Lib, helloSent: bool, data: seq<Byte>, turn: Turn): Flow {
    var f := Flow(l, []);
    if !helloSent then Call(f, turn, 0) else LastPart(FeedPart(f, data, turn), turn, LastIndex(data, turn))
  }

  /** A first drain writes exactly if something is pending. */
  lemma FirstDrain(f: Flow, bytes: seq<Byte>, a: Alloc)
    requires f.writes == []
    ensures var g := Push(f, Protocol, bytes); Flush(g, a).writes == [] <==> g.lib.output == []
  {
    hide Pieces, Flat, Cut16;
  }

  // ---------- Conservation ----------

  /** What was put into the output is what was drained and what is left, in order. */
  ghost predicate Conserved(l: Lib) { l.generated == l.handed + l.output }

  /** Later output: nothing forgotten, nothing taken back. */
  ghost predicate Extends(l: Lib, l': Lib) {
    Conserved(l') && l.generated <= l'.generated && l.handed <= l'.handed
  }

  lemma PushExtends(f: Flow, kind: Kind, bytes: seq<Byte>)
    requires Conserved(f.lib)
    ensures Extends(f.lib, Push(f, kind, bytes).lib)
  {
    hide Pieces;
  }

  lemma FlushExtends(f: Flow, a: Alloc)
    requires Conserved(f.lib)
    ensures Extends(f.lib, Flush(f, a).lib) && Flush(f, a).lib.output == []
  {
    hide Flat, Cut16;
  }

  lemma EncryptExtends(f: Flow, kind: Kind, x: Frame)
    requires Conserved(f.lib)
    ensures Extends(f.lib, Encrypt(f, kind, x).lib) && Encrypt(f, kind, x).lib.handed == f.lib.handed
  {
    hide Push;
    PushExtends(f, kind, x.record);
    PushHanded(f, kind, x.record);
  }

  lemma PushHanded(f: Flow, kind: Kind, bytes: seq<Byte>)
    ensures Push(f, kind, bytes).lib.handed == f.lib.handed && f.lib.output <= Push(f, kind, bytes).lib.output
  {
  }

  lemma CallExtends(f: Flow, turn: Turn, k: nat)
    requires Conserved(f.lib)
    ensures Extends(f.lib, Call(f, turn, k).lib) && Call(f, turn, k).lib.output == []
  {
    hide Push, Flush;
    PushExtends(f, Protocol, turn.made(k));
    FlushExtends(Push(f, Protocol, turn.made(k)), turn.post(k));
  }

  lemma {:induction false} CallsExtends(f: Flow, turn: Turn, k: nat, m: nat)
    requires Conserved(f.lib)
    ensures Extends(f.lib, Calls(f, turn, k, m).lib)
  {
    hide Call;
    if m > k {
      CallsExtends(f, turn, k, m - 1);
      CallExtends(Calls(f, turn, k, m - 1), turn, m - 1);
    }
  }

  lemma {:induction false} FeedExtends(f: Flow, turn: Turn, n: nat)
    requires Conserved(f.lib)
    ensures Extends(f.lib, Feeds(f, turn, n).lib)
  {
    hide Calls, Flush, CallsAfter;
    if n > 0 {
      var g := Feeds(f, turn, n - 1);
      FeedExtends(f, turn, n - 1);
      FlushExtends(g, turn.pre(n - 1));
      CallsExtends(Flush(g, turn.pre(n - 1)), turn, CallsAfter(turn.hs, n - 1), CallsAfter(turn.hs, n));
    }
  }

  /** The TLS phase drains everything that was left, and conserves the rest. */
  lemma TlsFlowExtends(l: Lib, helloSent: bool, data: seq<Byte>, turn: Turn)
    requires Conserved(l)
    ensures var l' := TlsFlow(l, helloSent, data, turn).lib;
            Extends(l, l') && l.handed + l.output <= l'.handed
  {
    hide Feeds, Call, Encrypt, Outcome, CallsAfter;
    var f := Flow(l, []);
    if !helloSent {
      CallExtends(f, turn, 0);
    } else {
      var g := Feeds(f, turn, Outcome(data, turn.hs, 0, 0).records);
      FeedExtends(f, turn, Outcome(data, turn.hs, 0, 0).records);
      EncryptExtends(g, Upgrade, turn.first);
      var h := FeedPart(f, data, turn);
      CallExtends(h, turn, LastIndex(data, turn));
      EncryptExtends(Call(h, turn, LastIndex(data, turn)), Upgrade, turn.second);
    }
  }

  // ---------- Upgrade requests ----------

  /** Requests that are or were in the output. */
  function Requests(l: Lib): nat { Upgrades(l.handed) + Upgrades(l.output) }

  lemma PushRequests(f: Flow, kind: Kind, bytes: seq<Byte>)
    ensures Requests(Push(f, kind, bytes).lib)
         == Requests(f.lib) + if kind == Upgrade && bytes != [] then 1 else 0
  {
    hide Pieces, Upgrades;
    PiecesAre(kind, bytes);
    UpgradesAppend(f.lib.output, Pieces(kind, bytes));
  }

  lemma FlushRequests(f: Flow, a: Alloc)
    ensures Requests(Flush(f, a).lib) == Requests(f.lib) && Flush(f, a).lib.output == []
  {
    hide Flat, Cut16;
    UpgradesAppend(f.lib.handed, f.lib.output);
  }

  lemma EncryptRequests(f: Flow, x: Frame)
    ensures Requests(Encrypt(f, Upgrade, x).lib) == Requests(f.lib) + if x.record != [] then 1 else 0
  {
    hide Push, Requests;
    PushRequests(f, Upgrade, x.record);
  }

  lemma CallRequests(f: Flow, turn: Turn, k: nat)
    ensures Requests(Call(f, turn, k).lib) == Requests(f.lib) && Call(f, turn, k).lib.output == []
  {
    hide Push, Flush, Requests;
    PushRequests(f, Protocol, turn.made(k));
    FlushRequests(Push(f, Protocol, turn.made(k)), turn.post(k));
  }

  lemma {:induction false} CallsRequests(f: Flow, turn: Turn, k: nat, m: nat)
    ensures Requests(Calls(f, turn, k, m).lib) == Requests(f.lib)
  {
    hide Call, Requests;
    if m > k {
      CallsRequests(f, turn, k, m - 1);
      CallRequests(Calls(f, turn, k, m - 1), turn, m - 1);
    }
  }

  lemma {:induction false} FeedRequests(f: Flow, turn: Turn, n: nat)
    ensures Requests(Feeds(f, turn, n).lib) == Requests(f.lib)
  {
    hide Calls, Flush, CallsAfter, Requests;
    if n > 0 {
      var g := Feeds(f, turn, n - 1);
      FeedRequests(f, turn, n - 1);
      FlushRequests(g, turn.pre(n - 1));
      CallsRequests(Flush(g, turn.pre(n - 1)), turn, CallsAfter(turn.hs, n - 1), CallsAfter(turn.hs, n));
    }
  }

  /** After the last call every request made so far has been drained; the one made then stays. */
  lemma TlsRequests(l: Lib, data: seq<Byte>, turn: Turn)
    requires turn.first.record != [] && turn.second.record != []
    ensures var l' := TlsFlow(l, true, data, turn).lib;
            && Upgrades(l'.handed) == Upgrades(l.handed) + Upgrades(l.output) + (if InFeed(data, turn) then 1 else 0)
            && Upgrades(l'.output) == if LastCall(data, turn) == Done then 1 else 0
  {
    hide Feeds, Call, Outcome, CallsAfter, Upgrades;
    var f, k := Flow(l, []), LastIndex(data, turn);
    var g := Feeds(f, turn, Outcome(data, turn.hs, 0, 0).records);
    FeedRequests(f, turn, Outcome(data, turn.hs, 0, 0).records);
    var h := FeedPart(f, data, turn);
    assert Requests(h.lib) == Requests(l) + if InFeed(data, turn) then 1 else 0 by {
      EncryptRequests(g, turn.first);
    }
    CallRequests(h, turn, k);
    PiecesAre(Upgrade, []);
    PiecesAre(Upgrade, turn.second.record);
    assert [] + Pieces(Upgrade, turn.second.record) == Pieces(Upgrade, turn.second.record);
  }

  // ---------- The writes of the TLS phase ----------

  /** The write of a drain that finds some bytes: none if there are none. */
  function Drains(bytes: seq<Byte>, a: Alloc): seq<Write> {
    if bytes == [] then [] else [Write(Cut16(bytes), a)]
  }

  /** The writes of calls k to m - 1 that each find only what they made themselves. */
  function MadeBy(turn: Turn, k: nat, m: nat): seq<Write> {
    if m <= k then [] else MadeBy(turn, k, m - 1) + Drains(turn.made(m - 1), turn.post(m - 1))
  }

  function EmptyWrite(x: Frame): seq<Write> { if x.ok then [Write([], x.a)] else [] }

  lemma FlushWrites(f: Flow, a: Alloc)
    ensures Flush(f, a).writes == f.writes + Drains(Flat(f.lib.output), a) && Flush(f, a).lib.output == []
  {
    FlatEmpty(f.lib.output);
    hide Flat, Cut16;
  }

  lemma CallWrites(f: Flow, turn: Turn, k: nat)
    ensures Call(f, turn, k).writes == f.writes + Drains(Flat(f.lib.output) + turn.made(k), turn.post(k))
    ensures Call(f, turn, k).lib.output == []
  {
    hide Flush, Drains, Flat, Pieces;
    FlatAppend(f.lib.output, Pieces(Protocol, turn.made(k)));
    PiecesAre(Protocol, turn.made(k));
    FlushWrites(Push(f, Protocol, turn.made(k)), turn.post(k));
  }

  lemma {:induction false} CallsWrites(f: Flow, turn: Turn, k: nat, m: nat)
    requires f.lib.output == []
    ensures Calls(f, turn, k, m).writes == f.writes + MadeBy(turn, k, m) && Calls(f, turn, k, m).lib.output == []
  {
    hide Call, Drains;
    if m > k {
      CallsWrites(f, turn, k, m - 1);
      CallWrites(Calls(f, turn, k, m - 1), turn, m - 1);
      NoBytes(turn.made(m - 1));
      Regroup(f.writes, MadeBy(turn, k, m - 1), Drains(turn.made(m - 1), turn.post(m - 1)));
    }
  }

  lemma NoBytes(bytes: seq<Byte>)
    ensures Flat([]) + bytes == bytes
  {
  }

  lemma Regroup(a: seq<Write>, b: seq<Write>, c: seq<Write>)
    ensures (a + b) + c == a + (b + c)
  {
  }

  lemma {:induction false} MadeByOn(turn: Turn, k: nat, m: nat)
    requires k <= m
    ensures MadeBy(turn, 0, m) == MadeBy(turn, 0, k) + MadeBy(turn, k, m)
  {
    hide Drains;
    if m > k {
      MadeByOn(turn, k, m - 1);
      Regroup(MadeBy(turn, 0, k), MadeBy(turn, k, m - 1), Drains(turn.made(m - 1), turn.post(m - 1)));
    }
  }

  lemma RecordWrites(f: Flow, turn: Turn, n: nat)
    ensures var k, m := CallsAfter(turn.hs, n), CallsAfter(turn.hs, n + 1);
            && Record(f, turn, n).writes == f.writes + Drains(Flat(f.lib.output), turn.pre(n)) + MadeBy(turn, k, m)
            && Record(f, turn, n).lib.output == []
  {
    hide Calls, CallsAfter, Flat, Drains, MadeBy, Flush;
    FlushWrites(f, turn.pre(n));
    CallsWrites(Flush(f, turn.pre(n)), turn, CallsAfter(turn.hs, n), CallsAfter(turn.hs, n + 1));
  }

  lemma CallsForward(hs: Oracle, n: nat)
    ensures CallsAfter(hs, 0) == 0 && CallsAfter(hs, n) <= CallsAfter(hs, n + 1)
  {
    hide Pumps;
  }

  lemma {:induction false} FeedsWrites(f: Flow, turn: Turn, n: nat)
    requires n > 0
    ensures Feeds(f, turn, n).writes
         == f.writes + Drains(Flat(f.lib.output), turn.pre(0)) + MadeBy(turn, 0, CallsAfter(turn.hs, n))
    ensures Feeds(f, turn, n).lib.output == []
  {
    hide Record, CallsAfter, Flat, Drains, MadeBy;
    var g := Feeds(f, turn, n - 1);
    RecordWrites(g, turn, n - 1);
    CallsForward(turn.hs, n - 1);
    if n == 1 {
      NoFeeds(f, turn);
    } else {
      FeedsWrites(f, turn, n - 1);
      MadeByOn(turn, CallsAfter(turn.hs, n - 1), CallsAfter(turn.hs, n));
      NothingLeft(turn.pre(n - 1));
      var d, k := f.writes + Drains(Flat(f.lib.output), turn.pre(0)), CallsAfter(turn.hs, n - 1);
      assert g.writes + [] == g.writes;
      Regroup(d, MadeBy(turn, 0, k), MadeBy(turn, k, CallsAfter(turn.hs, n)));
    }
  }

  lemma NothingLeft(a: Alloc)
    ensures Drains(Flat([]), a) == []
  {
  }

  lemma NoFeeds(f: Flow, turn: Turn)
    ensures Feeds(f, turn, 0) == f
  {
  }

  lemma EncryptWrites(f: Flow, kind: Kind, x: Frame)
    ensures Encrypt(f, kind, x).writes == f.writes + EmptyWrite(x)
    ensures Flat(Encrypt(f, kind, x).lib.output) == Flat(f.lib.output) + x.record
  {
    hide Flat, Pieces;
    FlatAppend(f.lib.output, Pieces(kind, x.record));
    PiecesAre(kind, x.record);
    assert f.writes + [] == f.writes;
  }

  /** What the last drain of a call finds: nothing is left over from before the first record. */
  function AtLast(l: Lib, data: seq<Byte>, turn: Turn): seq<Byte> {
    (if Outcome(data, turn.hs, 0, 0).records > 0 then [] else Flat(l.output))
    + (if InFeed(data, turn) then turn.first.record else [])
    + turn.made(LastIndex(data, turn))
  }

  /** The writes of the feed loop: left-over output before the first record, then what each call made, one by one. */
  function InLoop(l: Lib, data: seq<Byte>, turn: Turn): seq<Write> {
    (if Outcome(data, turn.hs, 0, 0).records > 0 then Drains(Flat(l.output), turn.pre(0)) else [])
    + MadeBy(turn, 0, LastIndex(data, turn))
  }

  lemma FeedPartWrites(l: Lib, data: seq<Byte>, turn: Turn)
    ensures var g := FeedPart(Flow(l, []), data, turn);
            && g.writes == InLoop(l, data, turn) + (if InFeed(data, turn) then EmptyWrite(turn.first) else [])
            && Flat(g.lib.output) + turn.made(LastIndex(data, turn)) == AtLast(l, data, turn)
  {
    hide Feeds, CallsAfter, Flat, Drains, MadeBy, Outcome, Encrypt, EmptyWrite;
    var f, n := Flow(l, []), Outcome(data, turn.hs, 0, 0).records;
    var d := Drains(Flat(l.output), turn.pre(0));
    FlatOfNothing();
    CallsForward(turn.hs, 0);
    NoFeeds(f, turn);
    MadeByNone(turn);
    if n > 0 {
      FeedsWrites(f, turn, n);
      assert [] + d == d;
    }
    var g := Feeds(f, turn, n);
    assert g.writes == InLoop(l, data, turn);
    EncryptWrites(g, Upgrade, turn.first);
    assert g.writes + [] == g.writes && Flat(g.lib.output) + [] == Flat(g.lib.output);
  }

  lemma FlatOfNothing()
    ensures Flat([]) == []
  {
  }

  lemma MadeByNone(turn: Turn)
    ensures MadeBy(turn, 0, 0) == []
  {
  }

  /**
   * Everything one call writes in the TLS phase, in order. Each drain is a write of its own: what was left over, before
   * the first record; what each `do_handshake` call made, right after it; the empty segment of an upgrade request made
   * in the feed loop; what the last call finds, the request included; and the empty segment of the request made then,
   * which itself stays behind. Without a record the left-over output goes with the last call. Before the hello there
   * is one call only.
   */
  lemma WritesExact(l: Lib, helloSent: bool, data: seq<Byte>, turn: Turn)
    ensures var f, k := TlsFlow(l, helloSent, data, turn), LastIndex(data, turn);
            if !helloSent then
              f.writes == Drains(Flat(l.output) + turn.made(0), turn.post(0)) && f.lib.output == []
            else
              && f.writes == InLoop(l, data, turn)
                             + (if InFeed(data, turn) then EmptyWrite(turn.first) else [])
                             + Drains(AtLast(l, data, turn), turn.post(k))
                             + (if turn.hs(k) == Done then EmptyWrite(turn.second) else [])
              && Flat(f.lib.output) == if turn.hs(k) == Done then turn.second.record else []
  {
    hide FeedPart, Call, Encrypt, Drains, Flat, AtLast, InLoop, EmptyWrite, LastIndex, InFeed;
    var f, k := Flow(l, []), LastIndex(data, turn);
    FlatOfNothing();
    if !helloSent {
      CallWrites(f, turn, 0);
    } else {
      FeedPartWrites(l, data, turn);
      var g := FeedPart(f, data, turn);
      CallWrites(g, turn, k);
      EncryptWrites(Call(g, turn, k), Upgrade, turn.second);
      assert Call(g, turn, k).writes + [] == Call(g, turn, k).writes;
      assert [] + turn.second.record == turn.second.record;
    }
  }
}
