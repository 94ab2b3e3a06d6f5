/** The writers at work: a run of queueing, writer threads, the kernel and close.
    The kernel may, while a write is in flight, zero-fill what a page not cached
    when the write began holds beyond the bytes already copied. */
module OutputRun {
  import opened OutputFile

  const WRITERS: nat := 4

  /** A write in flight: the bytes it has copied, and the pages that were not in the
      file cache when it began. */
  datatype Flight = Flight(copied: set<nat>, uncached: set<nat>)

  datatype Status = Queued | InFlight(writer: nat, flight: Flight) | Written

  /** `ranges` is what has been queued; `edgeAt` counts the edges close has written. */
  datatype State = State(
    buf: seq<nat>, file: seq<nat>, cached: set<nat>,
    ranges: seq<Range>, blocks: seq<Range>, status: seq<Status>, edges: seq<Range>,
    closed: bool, edgeAt: nat, edge: Status)

  datatype Event =
    | Modify(i: nat, v: nat)          // the linking thread writes the buffer
    | Queue(r: Range)
    | Receive(w: nat, b: nat)         // writer w takes block b from the channel
    | Copy(b: nat, i: nat)            // the kernel copies a byte of block b
    | ZeroFill(b: nat, p: nat)        // and may clear the rest of page p
    | Finish(b: nat)
    | Close                           // no more ranges; the writers drain the channel
    | EdgeStart                       // after every writer has been joined
    | EdgeCopy(i: nat)
    | EdgeZeroFill(p: nat)
    | EdgeFinish

  function PageOf(i: nat): nat { i / PAGE }

  ghost predicate InSome(pieces: seq<Range>, i: nat) { exists k :: 0 <= k < |pieces| && Has(pieces[k], i) }

  ghost predicate IsQueued(s: State, i: nat) { InSome(s.ranges, i) }

  ghost predicate Touches(r: Range, p: nat) { exists i: nat :: Has(r, i) && PageOf(i) == p }

  /** All writers have returned: the channel is closed and empty, and no write is in
      flight. */
  predicate Joined(s: State) {
    s.closed && forall b :: 0 <= b < |s.status| ==> s.status[b] == Written
  }

  ghost function Cleared(file: seq<nat>, p: nat, copied: set<nat>): (f: seq<nat>)
    ensures |f| == |file|
    ensures forall i :: 0 <= i < |f| ==> f[i] == if PageOf(i) == p && i !in copied then 0 else file[i]
  {
    seq(|file|, i requires 0 <= i < |file| => if PageOf(i) == p && i !in copied then 0 else file[i])
  }

  ghost predicate Enabled(s: State, e: Event) {
    match e
    case Modify(i, _) => i < |s.buf| && !IsQueued(s, i)
    case Queue(r) => !s.closed && End(r) <= |s.buf| && forall q :: q in s.ranges ==> Disjoint(q, r)
    case Receive(w, b) =>
      w < WRITERS && b < |s.status| && s.status[b] == Queued
      && forall c :: 0 <= c < |s.status| && s.status[c].InFlight? ==> s.status[c].writer != w
    case Copy(b, i) => b < |s.status| && b < |s.blocks| && s.status[b].InFlight?
                       && Has(s.blocks[b], i) && i < |s.buf| == |s.file|
    case ZeroFill(b, p) => b < |s.status| && s.status[b].InFlight? && p in s.status[b].flight.uncached
    case Finish(b) => b < |s.status| && b < |s.blocks| && s.status[b].InFlight?
                      && forall i :: Has(s.blocks[b], i) ==> i in s.status[b].flight.copied
    case Close => !s.closed
    case EdgeStart => Joined(s) && s.edgeAt < |s.edges| && s.edge == Queued
    case EdgeCopy(i) => s.edge.InFlight? && s.edgeAt < |s.edges| && Has(s.edges[s.edgeAt], i) && i < |s.buf| == |s.file|
    case EdgeZeroFill(p) => s.edge.InFlight? && p in s.edge.flight.uncached
    case EdgeFinish => s.edge.InFlight? && s.edgeAt < |s.edges|
                       && forall i :: Has(s.edges[s.edgeAt], i) ==> i in s.edge.flight.copied
  }

  ghost function PagesOf(r: Range): set<nat> { set i | r.off <= i < r.off + r.len :: PageOf(i) }

  ghost function Begin(s: State, r: Range, w: nat): Status {
    InFlight(w, Flight({}, PagesOf(r) - s.cached))
  }

  ghost function Next(s: State, e: Event): State
    requires Enabled(s, e)
  {
    match e
    case Modify(i, v) => s.(buf := s.buf[i := v])
    case Queue(r) =>
      s.(ranges := s.ranges + [r], blocks := s.blocks + BlocksOf(r), edges := s.edges + EdgesOf(r),
         status := s.status + seq(|BlocksOf(r)|, _ => Queued))
    case Receive(w, b) => if b < |s.blocks| then s.(status := s.status[b := Begin(s, s.blocks[b], w)]) else s
    case Copy(b, i) =>
      var f := s.status[b].flight;
      s.(file := s.file[i := s.buf[i]], status := s.status[b := s.status[b].(flight := f.(copied := f.copied + {i}))])
    case ZeroFill(b, p) => s.(file := Cleared(s.file, p, s.status[b].flight.copied))
    case Finish(b) => s.(status := s.status[b := Written], cached := s.cached + PagesOf(s.blocks[b]))
    case Close => s.(closed := true)
    case EdgeStart => s.(edge := Begin(s, s.edges[s.edgeAt], 0))
    case EdgeCopy(i) =>
      s.(file := s.file[i := s.buf[i]], edge := s.edge.(flight := s.edge.flight.(copied := s.edge.flight.copied + {i})))
    case EdgeZeroFill(p) => s.(file := Cleared(s.file, p, s.edge.flight.copied))
    case EdgeFinish => s.(edge := Queued, edgeAt := s.edgeAt + 1, cached := s.cached + PagesOf(s.edges[s.edgeAt]))
  }

  /** OutputFile::open: nothing queued, and a file of the buffer's length. */
  ghost predicate Opened(s: State) {
    && |s.file| == |s.buf| && s.ranges == [] && s.blocks == [] && s.status == [] && s.edges == []
    && !s.closed && s.edgeAt == 0 && s.edge == Queued
  }

  /** Still to be copied: byte i is in an unwritten block or edge and not copied yet. */
  ghost predicate BlockOwes(s: State, b: nat, i: nat) {
    && b < |s.blocks| == |s.status| && Has(s.blocks[b], i)
    && (s.status[b].Queued? || (s.status[b].InFlight? && i !in s.status[b].flight.copied))
  }

  ghost predicate EdgeOwes(s: State, k: nat, i: nat) {
    && s.edgeAt <= k < |s.edges| && Has(s.edges[k], i)
    && (k == s.edgeAt && s.edge.InFlight? ==> i !in s.edge.flight.copied)
  }

  ghost predicate Owed(s: State, i: nat) {
    (exists b :: BlockOwes(s, b, i)) || (exists k :: EdgeOwes(s, k, i))
  }

  // ---- The invariant ----

  ghost predicate Shaped(s: State) {
    && |s.file| == |s.buf| && |s.blocks| == |s.status| && s.edgeAt <= |s.edges|
    && (forall r :: r in s.ranges ==> End(r) <= |s.buf|)
    && (forall b :: 0 <= b < |s.blocks| ==> Whole(s.blocks[b]))
    && (forall k :: 0 <= k < |s.edges| ==> Partial(s.edges[k]))
    && (s.edge.InFlight? ==> Joined(s) && s.edgeAt < |s.edges|) && s.edge != Written
  }

  ghost predicate AllApart(a: seq<Range>, b: seq<Range>) {
    forall j, k :: 0 <= j < |a| && 0 <= k < |b| ==> Disjoint(a[j], b[k])
  }

  /** Every piece is part of a queued range. */
  ghost predicate Within(pieces: seq<Range>, ranges: seq<Range>) {
    forall i: nat :: InSome(pieces, i) ==> InSome(ranges, i)
  }

  /** Each queued byte is in exactly one piece, and no other byte is in any. */
  ghost predicate Tiled(ranges: seq<Range>, blocks: seq<Range>, edges: seq<Range>) {
    && Apart(blocks) && Apart(edges) && AllApart(blocks, edges)
    && Within(blocks, ranges) && Within(edges, ranges)
    && forall i: nat :: InSome(ranges, i) ==> InSome(blocks, i) || InSome(edges, i)
  }

  ghost predicate FlightOk(f: Flight, r: Range) {
    && f.uncached <= PagesOf(r)
    && forall i :: i in f.copied ==> Has(r, i)
  }

  ghost predicate Flights(s: State)
    requires Shaped(s)
  {
    && (forall b :: 0 <= b < |s.blocks| && s.status[b].InFlight? ==> FlightOk(s.status[b].flight, s.blocks[b]))
    && (forall b, c :: 0 <= b < c < |s.blocks| && s.status[b].InFlight? && s.status[c].InFlight?
          ==> s.status[b].writer != s.status[c].writer)
    && (s.edge.InFlight? ==> FlightOk(s.edge.flight, s.edges[s.edgeAt]))
    && (forall k, i: nat :: 0 <= k < s.edgeAt && Has(s.edges[k], i) ==> PageOf(i) in s.cached)
    && (s.edge.InFlight? ==> forall p :: p in s.edge.flight.uncached ==> p !in s.cached)
  }

  /** Every queued byte is in the file already or still to be copied. */
  ghost predicate Kept(s: State)
    requires Shaped(s)
  {
    forall i: nat :: i < |s.buf| && IsQueued(s, i) ==> s.file[i] == s.buf[i] || Owed(s, i)
  }

  ghost predicate Inv(s: State) {
    Shaped(s) && Tiled(s.ranges, s.blocks, s.edges) && Flights(s) && Kept(s)
  }

  lemma WholeHasPage(b: Range, i: nat, j: nat)
    requires Whole(b) && Has(b, i) && PageOf(i) == PageOf(j)
    ensures Has(b, j)
  {
    assert b.off / PAGE <= PageOf(i) < (b.off + b.len) / PAGE;
  }

  /** No two block writes in flight touch one page, and no block is in flight while
      an edge is: an edge waits for every writer to be joined. */
  lemma FlightsShareNoPage(s: State, b: nat, c: nat, p: nat)
    requires Inv(s) && b < c < |s.blocks| && s.status[b].InFlight? && s.status[c].InFlight?
    ensures !(Touches(s.blocks[b], p) && Touches(s.blocks[c], p))
    ensures !s.edge.InFlight?
  {
    if Touches(s.blocks[b], p) && Touches(s.blocks[c], p) {
      var i, j :| Has(s.blocks[b], i) && PageOf(i) == p && Has(s.blocks[c], j) && PageOf(j) == p;
      WholeHasPage(s.blocks[b], i, j);
    }
  }

  // ---- Each event keeps the invariant ----

  lemma InSomeOf(a: seq<Range>, b: seq<Range>, i: nat)
    ensures InSome(a + b, i) <==> InSome(a, i) || InSome(b, i)
  {
    if InSome(a, i) {
      var k :| 0 <= k < |a| && Has(a[k], i);
      assert Has((a + b)[k], i);
    }
    if InSome(b, i) {
      var k :| 0 <= k < |b| && Has(b[k], i);
      assert Has((a + b)[|a| + k], i);
    }
  }

  /** Pieces inside ranges that share no byte are apart. */
  lemma FarApart(a: seq<Range>, b: seq<Range>, ranges: seq<Range>, r: Range)
    requires Within(a, ranges) && Within(b, [r]) && forall q :: q in ranges ==> Disjoint(q, r)
    ensures AllApart(a, b) && AllApart(b, a)
  {
    forall j, k, i: nat | 0 <= j < |a| && 0 <= k < |b| ensures !(Has(a[j], i) && Has(b[k], i)) {
      if Has(a[j], i) && Has(b[k], i) {
        assert InSome(a, i) && InSome(b, i);
        Elsewhere(ranges, r, i);
      }
    }
  }

  lemma Elsewhere(ranges: seq<Range>, r: Range, i: nat)
    requires InSome(ranges, i) && forall q :: q in ranges ==> Disjoint(q, r)
    ensures !InSome([r], i)
  {
    var q :| 0 <= q < |ranges| && Has(ranges[q], i);
    assert Disjoint(ranges[q], r);
  }

  lemma ApartOf(a: seq<Range>, b: seq<Range>)
    requires Apart(a) && Apart(b) && AllApart(a, b)
    ensures Apart(a + b)
  {
  }

  lemma WithinOf(a: seq<Range>, b: seq<Range>, ranges: seq<Range>, r: Range)
    requires Within(a, ranges) && Within(b, [r])
    ensures Within(a + b, ranges + [r])
  {
    forall i: nat | InSome(a + b, i) ensures InSome(ranges + [r], i) {
      InSomeOf(a, b, i);
      InSomeOf(ranges, [r], i);
    }
  }

  /** One range, cut. */
  lemma CutTiles(r: Range)
    ensures Tiled([r], BlocksOf(r), EdgesOf(r))
  {
    var es, bs := EdgesOf(r), BlocksOf(r);
    CutApart(r);
    ApartBoth(es, bs);
    CutWithin(r, bs);
    CutWithin(r, es);
    forall i: nat | InSome([r], i) ensures InSome(bs, i) || InSome(es, i) {
      CutCovers(r, i);
      assert InSome(PiecesOf(r), i);
      InSomeOf(es, bs, i);
    }
  }

  lemma ApartBoth(a: seq<Range>, b: seq<Range>)
    requires Apart(a + b)
    ensures Apart(a) && Apart(b) && AllApart(b, a)
  {
    var all := a + b;
    forall j, k | 0 <= j < k < |a| ensures Disjoint(a[j], a[k]) {
      assert Disjoint(all[j], all[k]);
    }
    forall j, k | 0 <= j < k < |b| ensures Disjoint(b[j], b[k]) {
      assert Disjoint(all[|a| + j], all[|a| + k]);
    }
    forall j, k | 0 <= j < |b| && 0 <= k < |a| ensures Disjoint(b[j], a[k]) {
      assert Disjoint(all[k], all[|a| + j]);
    }
  }

  lemma CutWithin(r: Range, pieces: seq<Range>)
    requires pieces == BlocksOf(r) || pieces == EdgesOf(r)
    ensures Within(pieces, [r])
  {
    CutShape(r);
    forall i: nat | InSome(pieces, i) ensures InSome([r], i) {
      var k :| 0 <= k < |pieces| && Has(pieces[k], i);
      assert pieces[k] in pieces;
      assert Has([r][0], i);
    }
  }

  /** Cutting one more range that shares no byte with the ones before. */
  lemma QueueTiles(ranges: seq<Range>, blocks: seq<Range>, edges: seq<Range>, r: Range)
    requires Tiled(ranges, blocks, edges) && forall q :: q in ranges ==> Disjoint(q, r)
    ensures Tiled(ranges + [r], blocks + BlocksOf(r), edges + EdgesOf(r))
  {
    var bs, es := BlocksOf(r), EdgesOf(r);
    CutTiles(r);
    FarApart(blocks, bs, ranges, r);
    FarApart(blocks, es, ranges, r);
    FarApart(edges, bs, ranges, r);
    FarApart(edges, es, ranges, r);
    ApartOf(blocks, bs);
    ApartOf(edges, es);
    WithinOf(blocks, bs, ranges, r);
    WithinOf(edges, es, ranges, r);
    forall i: nat | InSome(ranges + [r], i) ensures InSome(blocks + bs, i) || InSome(edges + es, i) {
      InSomeOf(ranges, [r], i);
      InSomeOf(blocks, bs, i);
      InSomeOf(edges, es, i);
    }
  }

  lemma QueueInv(s: State, r: Range)
    requires Inv(s) && Enabled(s, Queue(r))
    ensures Inv(Next(s, Queue(r)))
  {
    var s' := Next(s, Queue(r));
    QueueTiles(s.ranges, s.blocks, s.edges, r);
    CutIsExact(r);
    forall i: nat | i < |s'.buf| && IsQueued(s', i) ensures s'.file[i] == s'.buf[i] || Owed(s', i) {
      if IsQueued(s, i) && Owed(s, i) {
        if b :| BlockOwes(s, b, i) {
          assert BlockOwes(s', b, i);
        } else {
          var k :| EdgeOwes(s, k, i);
          assert EdgeOwes(s', k, i);
        }
      } else if !IsQueued(s, i) {
        QueueOwes(s, r, i);
      }
    }
  }

  lemma QueueOwes(s: State, r: Range, i: nat)
    requires Inv(s) && Enabled(s, Queue(r)) && IsQueued(Next(s, Queue(r)), i) && !IsQueued(s, i)
    ensures Owed(Next(s, Queue(r)), i)
  {
    var s' := Next(s, Queue(r));
    InSomeOf(s.ranges, [r], i);
    CutTiles(r);
    if InSome(BlocksOf(r), i) {
      var k :| 0 <= k < |BlocksOf(r)| && Has(BlocksOf(r)[k], i);
      assert BlockOwes(s', |s.blocks| + k, i);
    } else {
      var k :| 0 <= k < |EdgesOf(r)| && Has(EdgesOf(r)[k], i);
      assert EdgeOwes(s', |s.edges| + k, i);
    }
  }

  /** What the events of one block share: they leave the pieces, and every other
      block's debt, alone. */
  lemma BlockDebts(s: State, s': State, b: nat, now: Status, i: nat)
    requires Shaped(s) && Shaped(s') && s'.blocks == s.blocks && s'.edges == s.edges && s'.edgeAt == s.edgeAt
    requires s'.edge == s.edge
    requires b < |s.status| && s'.status == s.status[b := now]
    requires Owed(s, i) && (BlockOwes(s, b, i) ==> BlockOwes(s', b, i))
    ensures Owed(s', i)
  {
    if c :| BlockOwes(s, c, i) {
      assert BlockOwes(s', c, i);
    } else {
      var k :| EdgeOwes(s, k, i);
      assert EdgeOwes(s', k, i);
    }
  }

  /** The events that touch only the status of one block, or its flight. */
  lemma BlockInv(s: State, e: Event, b: nat)
    requires Inv(s) && Enabled(s, e)
    requires (e.Receive? && e.b == b) || (e.Copy? && e.b == b) || (e.Finish? && e.b == b)
    ensures Inv(Next(s, e))
  {
    var s' := Next(s, e);
    assert s'.status == s.status[b := s'.status[b]];
    forall i: nat | i < |s'.buf| && IsQueued(s', i) ensures s'.file[i] == s'.buf[i] || Owed(s', i) {
      assert IsQueued(s, i);
      if s.file[i] != s.buf[i] && !(e.Copy? && e.i == i) {
        BlockDebts(s, s', b, s'.status[b], i);
      }
    }
  }

  /** A block's zero-fill clears only bytes of that block that it has yet to copy:
      the block has its pages to itself. */
  lemma ZeroFillInv(s: State, b: nat, p: nat)
    requires Inv(s) && Enabled(s, ZeroFill(b, p))
    ensures Inv(Next(s, ZeroFill(b, p)))
  {
    var s' := Next(s, ZeroFill(b, p));
    forall i: nat | i < |s'.buf| && IsQueued(s', i) ensures s'.file[i] == s'.buf[i] || Owed(s', i) {
      if PageOf(i) == p && i !in s.status[b].flight.copied {
        var j :| Has(s.blocks[b], j) && PageOf(j) == p;
        WholeHasPage(s.blocks[b], j, i);
        assert BlockOwes(s', b, i);
      } else if s.file[i] != s.buf[i] {
        SameDebts(s, s', i);
      }
    }
  }

  lemma SameDebts(s: State, s': State, i: nat)
    requires s'.blocks == s.blocks && s'.edges == s.edges && s'.edgeAt == s.edgeAt && s'.edge == s.edge
    requires s'.status == s.status
    requires Owed(s, i)
    ensures Owed(s', i)
  {
    if b :| BlockOwes(s, b, i) {
      assert BlockOwes(s', b, i);
    } else {
      var k :| EdgeOwes(s, k, i);
      assert EdgeOwes(s', k, i);
    }
  }

  /** An edge's zero-fill clears no byte written before: no block shares its page, and
      an edge written into the page before it would have cached the page. */
  lemma EdgeZeroFillInv(s: State, p: nat)
    requires Inv(s) && Enabled(s, EdgeZeroFill(p))
    ensures Inv(Next(s, EdgeZeroFill(p)))
  {
    var s' := Next(s, EdgeZeroFill(p));
    var e := s.edges[s.edgeAt];
    forall i: nat | i < |s'.buf| && IsQueued(s', i) ensures s'.file[i] == s'.buf[i] || Owed(s', i) {
      if PageOf(i) == p && i !in s.edge.flight.copied {
        var j :| Has(e, j) && PageOf(j) == p;
        if b: nat :| b < |s.blocks| && Has(s.blocks[b], i) {
          assert Disjoint(s.blocks[b], e);
          WholeHasPage(s.blocks[b], i, j);
        } else {
          assert InSome(s.blocks, i) || InSome(s.edges, i);
          var k: nat :| k < |s.edges| && Has(s.edges[k], i);
          assert EdgeOwes(s', k, i);
        }
      } else if s.file[i] != s.buf[i] {
        SameDebts(s, s', i);
      }
    }
  }

  lemma EdgeInv(s: State, e: Event)
    requires Inv(s) && Enabled(s, e) && (e.EdgeStart? || e.EdgeCopy? || e.EdgeFinish?)
    ensures Inv(Next(s, e))
  {
    var s' := Next(s, e);
    forall i: nat | i < |s'.buf| && IsQueued(s', i) ensures s'.file[i] == s'.buf[i] || Owed(s', i) {
      assert IsQueued(s, i);
      if s.file[i] != s.buf[i] && !(e.EdgeCopy? && e.i == i) {
        if b :| BlockOwes(s, b, i) {
          assert BlockOwes(s', b, i);
        } else {
          var k :| EdgeOwes(s, k, i);
          assert EdgeOwes(s', k, i);
        }
      }
    }
  }

  lemma StillInv(s: State, e: Event)
    requires Inv(s) && Enabled(s, e) && (e.Modify? || e.Close?)
    ensures Inv(Next(s, e))
  {
    var s' := Next(s, e);
    forall i: nat | i < |s'.buf| && IsQueued(s', i) ensures s'.file[i] == s'.buf[i] || Owed(s', i) {
      assert IsQueued(s, i);
      if s.file[i] != s.buf[i] {
        SameDebts(s, s', i);
      }
    }
  }

  lemma NextInv(s: State, e: Event)
    requires Inv(s) && Enabled(s, e)
    ensures Inv(Next(s, e))
  {
    match e
    case Queue(r) => QueueInv(s, r);
    case Receive(_, b) => BlockInv(s, e, b);
    case Copy(b, _) => BlockInv(s, e, b);
    case Finish(b) => BlockInv(s, e, b);
    case ZeroFill(b, p) => ZeroFillInv(s, b, p);
    case EdgeZeroFill(p) => EdgeZeroFillInv(s, p);
    case Modify(_, _) => StillInv(s, e);
    case Close => StillInv(s, e);
    case _ => EdgeInv(s, e);
  }

  // ---- Whole runs ----

  ghost predicate IsRun(s: State, events: seq<Event>, s': State)
    decreases |events|
  {
    if events == [] then s' == s
    else Enabled(s, events[0]) && IsRun(Next(s, events[0]), events[1..], s')
  }

  lemma {:induction false} RunInv(s: State, events: seq<Event>, s': State)
    requires Inv(s) && IsRun(s, events, s')
    ensures Inv(s')
    decreases |events|
  {
    if events != [] {
      NextInv(s, events[0]);
      RunInv(Next(s, events[0]), events[1..], s');
    }
  }

  /** close has returned: the writers are joined and every edge is written. */
  ghost predicate Closed(s: State) {
    Joined(s) && s.edgeAt == |s.edges|
  }

  lemma NothingOwed(s: State, i: nat)
    requires Closed(s)
    ensures !Owed(s, i)
  {
  }

  /** Whatever the writers and the kernel did, once close returns the file holds the
      buffer's bytes in every queued range; and on the way no two writes in flight
      ever touched one page. */
  lemma ClosedFileAgrees(s0: State, events: seq<Event>, s: State)
    requires Opened(s0) && IsRun(s0, events, s)
    ensures |s.file| == |s.buf| && |s.status| == |s.blocks|
    ensures Closed(s) ==> forall i: nat :: i < |s.buf| && IsQueued(s, i) ==> s.file[i] == s.buf[i]
    ensures forall b: nat, c: nat, p: nat :: (b < c < |s.blocks| && s.status[b].InFlight? && s.status[c].InFlight?
                                              ==> !(Touches(s.blocks[b], p) && Touches(s.blocks[c], p)))
    ensures s.edge.InFlight? ==> Joined(s)
  {
    RunInv(s0, events, s);
    forall b: nat, c: nat, p: nat | b < c < |s.blocks| && s.status[b].InFlight? && s.status[c].InFlight?
      ensures !(Touches(s.blocks[b], p) && Touches(s.blocks[c], p))
    {
      FlightsShareNoPage(s, b, c, p);
    }
    if Closed(s) {
      forall i: nat | i < |s.buf| && IsQueued(s, i) ensures s.file[i] == s.buf[i] {
        NothingOwed(s, i);
      }
    }
  }

  /** What a link queues, in order: what is between the header and the symbol table, up
      to the signature, the header, and the signature. */
  function LinkRanges(hdrEnd: nat, symtabStart: nat, sigStart: nat, len: nat): seq<Range>
    requires hdrEnd <= symtabStart <= sigStart <= len
  {
    [Range(hdrEnd, symtabStart - hdrEnd), Range(symtabStart, sigStart - symtabStart),
     Range(0, hdrEnd), Range(sigStart, len - sigStart)]
  }

  /** Each byte of the output is in exactly one of them. */
  lemma LinkRangesTile(hdrEnd: nat, symtabStart: nat, sigStart: nat, len: nat)
    requires hdrEnd <= symtabStart <= sigStart <= len
    ensures Apart(LinkRanges(hdrEnd, symtabStart, sigStart, len))
    ensures forall i: nat :: InSome(LinkRanges(hdrEnd, symtabStart, sigStart, len), i) <==> i < len
  {
    var rs := LinkRanges(hdrEnd, symtabStart, sigStart, len);
    forall i: nat ensures InSome(rs, i) <==> i < len {
      if i < len {
        assert Has(rs[if i < hdrEnd then 2 else if i < symtabStart then 0 else if i < sigStart then 1 else 3], i);
      }
    }
  }

  /** So after close the file a link leaves is its buffer. */
  lemma LinkedFileIsBuffer(
    s0: State, events: seq<Event>, s: State, hdrEnd: nat, symtabStart: nat, sigStart: nat)
    requires Opened(s0) && IsRun(s0, events, s) && Closed(s) && hdrEnd <= symtabStart <= sigStart <= |s.buf|
    requires s.ranges == LinkRanges(hdrEnd, symtabStart, sigStart, |s.buf|)
    ensures s.file == s.buf
  {
    ClosedFileAgrees(s0, events, s);
    LinkRangesTile(hdrEnd, symtabStart, sigStart, |s.buf|);
    forall i: nat | i < |s.buf| ensures s.file[i] == s.buf[i] {
      assert IsQueued(s, i);
    }
  }

  /** Why blocks must be whole pages: two blocks of one byte in one page, written at
      once, can lose a byte for good. */
  lemma PartialBlocksLoseBytes(s: State)
    requires s.buf == [7, 8] && |s.file| == 2 && s.cached == {} && s.edges == [] && s.edgeAt == 0
    requires s.edge == Queued && s.closed
    requires s.ranges == s.blocks == [Range(0, 1), Range(1, 1)] && s.status == [Queued, Queued]
    ensures exists events, s' :: IsRun(s, events, s') && Closed(s') && s'.file == [0, 8]
  {
    var s2 := BothInFlight(s);
    var s7, done := LosingByte(s2);
    Prepend(Next(s, Receive(0, 0)), Receive(1, 1), done, s7);
    Prepend(s, Receive(0, 0), [Receive(1, 1)] + done, s7);
  }

  lemma LosingByte(s2: State) returns (s7: State, done: seq<Event>)
    requires s2.buf == [7, 8] && |s2.file| == 2 && s2.edges == [] && s2.edgeAt == 0 && s2.edge == Queued && s2.closed
    requires s2.blocks == [Range(0, 1), Range(1, 1)]
    requires s2.status == [InFlight(0, Flight({}, {0})), InFlight(1, Flight({}, {0}))]
    ensures IsRun(s2, done, s7) && Closed(s7) && s7.file == [0, 8]
  {
    var s3 := Next(s2, Copy(0, 0));
    var s4 := Next(s3, Finish(0));
    var s5 := Next(s4, ZeroFill(1, 0));
    assert s5.file[0] == 0;
    var s6 := Next(s5, Copy(1, 1));
    s7 := Next(s6, Finish(1));
    assert s7.file == [0, 8];
    Prepend(s6, Finish(1), [], s7);
    Prepend(s5, Copy(1, 1), [Finish(1)] + [], s7);
    Prepend(s4, ZeroFill(1, 0), [Copy(1, 1)] + ([Finish(1)] + []), s7);
    var rest := [ZeroFill(1, 0)] + ([Copy(1, 1)] + ([Finish(1)] + []));
    Prepend(s3, Finish(0), rest, s7);
    Prepend(s2, Copy(0, 0), [Finish(0)] + rest, s7);
    done := [Copy(0, 0)] + ([Finish(0)] + rest);
  }

  lemma BothInFlight(s: State) returns (s2: State)
    requires s.cached == {} && s.blocks == [Range(0, 1), Range(1, 1)] && s.status == [Queued, Queued]
    ensures Enabled(s, Receive(0, 0)) && Enabled(Next(s, Receive(0, 0)), Receive(1, 1))
    ensures s2 == Next(Next(s, Receive(0, 0)), Receive(1, 1))
    ensures s2 == s.(status := [InFlight(0, Flight({}, {0})), InFlight(1, Flight({}, {0}))])
  {
    assert PagesOf(s.blocks[0]) == {0} by { assert PageOf(0) == 0; }
    assert PagesOf(s.blocks[1]) == {0} by { assert Has(s.blocks[1], 1) && PageOf(1) == 0; }
    assert {0} - s.cached == {0};
    s2 := Next(Next(s, Receive(0, 0)), Receive(1, 1));
    assert s2.status == [InFlight(0, Flight({}, {0})), InFlight(1, Flight({}, {0}))];
  }

  lemma Prepend(s: State, e: Event, events: seq<Event>, s': State)
    requires Enabled(s, e) && IsRun(Next(s, e), events, s')
    ensures IsRun(s, [e] + events, s')
  {
    assert ([e] + events)[1..] == events;
  }
}
