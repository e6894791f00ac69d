/**
 Resolution requests in flight (internal/jobserver/pkgs/resolve.go): each adds its edge to the
 cycle detector when it begins and removes it when it ends. Edges are a set, requests are not.
 */
module Requests {
  import opened Wrappers
  import opened Graph

  type Pair = (string, string)

  /** The graph, and the accepted requests that have not ended. */
  datatype Service = Service(edges: Edges, open: multiset<Pair>)

  const EMPTY := Service(map[], multiset{})

  datatype Event = Begin(from: string, to: string, order: Trace) | End(from: string, to: string)

  /** The search took some order, and only requests in flight end. */
  ghost predicate Possible(s: Service, e: Event) {
    match e
    case Begin(from, to, tr) => TraceOf(s.edges, to, from, tr)
    case End(from, to) => (from, to) in s.open
  }

  ghost function After(s: Service, e: Event): Service {
    match e
    case Begin(from, to, tr) =>
      if Rejects(from, to, tr) then s else Service(Added(s.edges, from, to, tr), s.open + multiset{(from, to)})
    case End(from, to) => Service(Unlink(s.edges, from, to), s.open - multiset{(from, to)})
  }

  ghost predicate PossibleRun(s: Service, events: seq<Event>)
    decreases |events|
  {
    events == [] || (Possible(s, events[0]) && PossibleRun(After(s, events[0]), events[1..]))
  }

  ghost function AfterAll(s: Service, events: seq<Event>): Service
    decreases |events|
  {
    if events == [] then s else AfterAll(After(s, events[0]), events[1..])
  }

  // ---------------------------------------------------------------- who keeps its edge

  predicate HasEdge(g: Edges, e: Pair) {
    e.1 in Succ(g, e.0)
  }

  /** Every request in flight has its edge. */
  ghost predicate AllKept(s: Service) {
    forall e | e in s.open :: HasEdge(s.edges, e)
  }

  /** No edge is there for nobody. */
  ghost predicate NoneSpare(s: Service) {
    forall e | HasEdge(s.edges, e) :: e in s.open
  }

  /** Now and after each event. */
  ghost predicate AlwaysKept(s: Service, events: seq<Event>)
    decreases |events|
  {
    AllKept(s) && (events == [] || AlwaysKept(After(s, events[0]), events[1..]))
  }

  /** Whenever a request ends, no other one for the same edge is in flight. */
  ghost predicate EndsAlone(s: Service, events: seq<Event>)
    decreases |events|
  {
    events == []
    || ((events[0].End? ==> s.open[(events[0].from, events[0].to)] <= 1) && EndsAlone(After(s, events[0]), events[1..]))
  }

  lemma EdgesAfter(s: Service, e: Event, p: Pair)
    ensures HasEdge(After(s, e).edges, p) <==>
              match e
              case Begin(from, to, tr) => HasEdge(s.edges, p) || (!Rejects(from, to, tr) && p == (from, to))
              case End(from, to) => HasEdge(s.edges, p) && p != (from, to)
  {
  }

  lemma StepKeepsNoneSpare(s: Service, e: Event)
    requires NoneSpare(s) && Possible(s, e)
    ensures NoneSpare(After(s, e))
  {
    forall p | HasEdge(After(s, e).edges, p) ensures p in After(s, e).open { EdgesAfter(s, e, p); }
  }

  lemma StepKeepsAllExactly(s: Service, e: Event)
    requires AllKept(s) && Possible(s, e)
    ensures AllKept(After(s, e)) <==> (e.End? ==> s.open[(e.from, e.to)] == 1)
  {
    var t := After(s, e);
    if e.End? {
      EdgesAfter(s, e, (e.from, e.to));
      assert t.open[(e.from, e.to)] == s.open[(e.from, e.to)] - 1;
    }
    forall p | p in t.open && (e.End? ==> p != (e.from, e.to)) ensures HasEdge(t.edges, p) { EdgesAfter(s, e, p); }
  }

  /**
   Throughout a run each request in flight has its edge exactly if no request ends while another holds
   the same edge.
   */
  lemma {:induction false} EdgesAreKeptExactly(s: Service, events: seq<Event>)
    requires AllKept(s) && NoneSpare(s) && PossibleRun(s, events)
    ensures AlwaysKept(s, events) <==> EndsAlone(s, events)
    decreases |events|
  {
    if events != [] {
      StepKeepsAllExactly(s, events[0]);
      StepKeepsNoneSpare(s, events[0]);
      if AllKept(After(s, events[0])) { EdgesAreKeptExactly(After(s, events[0]), events[1..]); }
      else if events[1..] == [] { assert !AlwaysKept(After(s, events[0]), events[1..]); }
    }
  }

  // ---------------------------------------------------------------- what that means for cycles

  /** Who waits for whom: the edges of the requests in flight. */
  ghost function Waits(open: multiset<Pair>): Edges {
    map v | v in Waiting(open) :: WaitsFor(open, v)
  }

  ghost function Waiting(open: multiset<Pair>): set<string> {
    set e | e in open :: e.0
  }

  ghost function WaitsFor(open: multiset<Pair>, v: string): set<string> {
    set e | e in open && e.0 == v :: e.1
  }

  lemma WaitsHave(open: multiset<Pair>, e: Pair)
    ensures HasEdge(Waits(open), e) <==> e in open
  {
    if e in open { assert e.0 in Waiting(open) && e.1 in WaitsFor(open, e.0); }
    if HasEdge(Waits(open), e) {
      var x :| x in open && x.0 == e.0 && x.1 == e.1;
      assert x == e;
    }
  }

  /** With all edges kept, the graph is what the requests wait for. */
  lemma KeptIsWaits(s: Service)
    requires AllKept(s) && NoneSpare(s)
    ensures forall v :: Succ(s.edges, v) == Succ(Waits(s.open), v)
  {
    forall v ensures Succ(s.edges, v) == Succ(Waits(s.open), v) {
      forall x ensures x in Succ(s.edges, v) <==> x in Succ(Waits(s.open), v) {
        WaitsHave(s.open, (v, x));
        assert HasEdge(s.edges, (v, x)) <==> x in Succ(s.edges, v);
        assert HasEdge(Waits(s.open), (v, x)) <==> x in Succ(Waits(s.open), v);
      }
    }
  }

  lemma ReachesSame(g: Edges, h: Edges, x: string, y: string)
    requires forall v :: Succ(g, v) <= Succ(h, v)
    ensures Reaches(g, x, y) ==> Reaches(h, x, y)
    ensures Follows(g, x, y) ==> Follows(h, x, y)
  {
    if Reaches(g, x, y) {
      var n: nat :| Walk(g, x, y, n);
      WalkSurvives(g, h, x, y, n);
    }
    if Follows(g, x, y) { FollowsSurvives(g, h, x, y); }
  }

  /**
   A request is let through although it closes a cycle of waiting requests exactly if the way
   back needs an edge that was lost.
   */
  lemma CycleIsMissedExactly(s: Service, from: string, to: string, tr: Trace)
    requires NoneSpare(s) && Acyclic(s.edges) && Acyclic(Waits(s.open))
    requires TraceOf(s.edges, to, from, tr) && Guarded(s.edges, from, to)
    ensures !Rejects(from, to, tr) && !Acyclic(Link(Waits(s.open), from, to))
       <==> Reaches(Waits(s.open), to, from) && !Reaches(s.edges, to, from)
  {
    AddEdgeRejectsCycles(s.edges, from, to, tr);
    LinkClosesCycle(s.edges, from, to);
    LinkClosesCycle(Waits(s.open), from, to);
  }

  /** Each search was guarded. */
  ghost predicate GuardedEvents(s: Service, events: seq<Event>)
    decreases |events|
  {
    events == []
    || ((events[0].Begin? ==> Acyclic(s.edges) && Guarded(s.edges, events[0].from, events[0].to))
        && GuardedEvents(After(s, events[0]), events[1..]))
  }

  /** While requests end alone, those in flight never wait for each other in a circle. */
  lemma {:induction false} WaitingStaysAcyclic(s: Service, events: seq<Event>)
    requires AllKept(s) && NoneSpare(s) && Acyclic(s.edges)
    requires PossibleRun(s, events) && EndsAlone(s, events) && GuardedEvents(s, events)
    ensures Acyclic(Waits(AfterAll(s, events).open))
    decreases |events|
  {
    if events == [] {
      KeptIsWaits(s);
      forall v ensures !Follows(Waits(s.open), v, v) { ReachesSame(Waits(s.open), s.edges, v, v); }
    } else {
      StepKeepsAllExactly(s, events[0]);
      StepKeepsNoneSpare(s, events[0]);
      match events[0] {
        case Begin(from, to, tr) => AddEdgeKeepsAcyclicExactly(s.edges, from, to);
        case End(from, to) => UnlinkKeepsAcyclic(s.edges, from, to);
      }
      WaitingStaysAcyclic(After(s, events[0]), events[1..]);
    }
  }

  const TRIVIAL := Trace([])

  /** A search from a node without children ends at once. */
  lemma Accepted(s: Service, from: string, to: string)
    requires from != to && Succ(s.edges, to) == {}
    ensures Possible(s, Begin(from, to, TRIVIAL))
    ensures After(s, Begin(from, to, TRIVIAL)) == Service(Link(s.edges, from, to), s.open + multiset{(from, to)})
  {
  }

  /** Of two requests from a to b one ends; then b may wait for a while a still waits for b. */
  lemma LostEdgeAdmitsCycle() returns (events: seq<Event>)
    ensures PossibleRun(EMPTY, events) && AfterAll(EMPTY, events).open == multiset{("a", "b"), ("b", "a")}
  {
    var twice, back := Begin("a", "b", TRIVIAL), Begin("b", "a", TRIVIAL);
    var one := After(EMPTY, twice);
    Accepted(EMPTY, "a", "b");
    var two := After(one, twice);
    Accepted(one, "a", "b");
    var lost := After(two, End("a", "b"));
    assert Succ(lost.edges, "a") == {} && lost.open == multiset{("a", "b")};
    Accepted(lost, "b", "a");
    events := [twice, twice, End("a", "b"), back];
    FourEvents(events, one, two, lost);
  }

  lemma FourEvents(events: seq<Event>, one: Service, two: Service, three: Service)
    requires |events| == 4 && Possible(EMPTY, events[0]) && After(EMPTY, events[0]) == one
    requires Possible(one, events[1]) && After(one, events[1]) == two
    requires Possible(two, events[2]) && After(two, events[2]) == three && Possible(three, events[3])
    ensures PossibleRun(EMPTY, events) && AfterAll(EMPTY, events) == After(three, events[3])
  {
    var last := After(three, events[3]);
    OneMore(three, events[3], events[4..], last, last);
    assert events[3..] == [events[3]] + events[4..];
    OneMore(two, events[2], events[3..], three, last);
    assert events[2..] == [events[2]] + events[3..];
    OneMore(one, events[1], events[2..], two, last);
    assert events[1..] == [events[1]] + events[2..];
    OneMore(EMPTY, events[0], events[1..], one, last);
    assert events == [events[0]] + events[1..];
  }

  lemma OneMore(s: Service, e: Event, rest: seq<Event>, next: Service, last: Service)
    requires Possible(s, e) && After(s, e) == next && PossibleRun(next, rest) && AfterAll(next, rest) == last
    ensures PossibleRun(s, [e] + rest) && AfterAll(s, [e] + rest) == last
  {
    assert ([e] + rest)[1..] == rest;
  }
}
