/**
 The interface crossings a message journey is expected to make, derived from one route of the
 shared topology (ncc/message_journey.py, _route_boundaries).
 */
module JourneyRoute {
  import opened Wrappers

  datatype Direction = Ingress | Egress

  datatype Leg = Request | Reply

  /** `position` counts from one within the leg; leg and position make the boundary's id. */
  datatype Boundary = Boundary(leg: Leg, position: nat, component: string, interface: string, direction: Direction)

  datatype Key = Key(leg: Leg, component: string, interface: string, direction: Direction)

  function KeyOf(b: Boundary): Key { Key(b.leg, b.component, b.interface, b.direction) }

  function Flip(d: Direction): Direction { if d.Ingress? then Egress else Ingress }

  datatype Link = Link(first: string, second: string)

  /** `bound` holds the endpoint pairs that have a shared interface binding. */
  datatype Topology = Topology(id: string, components: set<string>, owners: map<string, string>, links: seq<Link>,
                               bound: set<set<string>>, routes: map<string, seq<string>>)

  /** What validation of the shared topology promises. */
  predicate Valid(t: Topology) {
    && (forall i :: 0 <= i < |t.links| ==> t.links[i].first in t.owners && t.links[i].second in t.owners)
    && (forall e :: e in t.owners ==> t.owners[e] in t.components)
    && (forall r :: r in t.routes ==> |t.routes[r]| >= 2)
  }

  datatype RouteError = NoRoute | RepeatedComponent | UnknownComponent | NotUniquelyLinked | NoBinding

  datatype Crossing = Crossing(first: string, firstEnd: string, second: string, secondEnd: string)

  function Back(c: Crossing): Crossing { Crossing(c.second, c.secondEnd, c.first, c.firstEnd) }

  predicate Joins(t: Topology, link: Link, a: string, b: string)
    requires link.first in t.owners && link.second in t.owners
  {
    {t.owners[link.first], t.owners[link.second]} == {a, b}
  }

  /** The links between two components, in the order of the topology. */
  function LinksBetween(t: Topology, links: seq<Link>, a: string, b: string): seq<Link>
    requires forall i :: 0 <= i < |links| ==> links[i].first in t.owners && links[i].second in t.owners
  {
    if links == [] then []
    else
      var last := links[|links| - 1];
      LinksBetween(t, links[..|links| - 1], a, b) + if Joins(t, last, a, b) then [last] else []
  }

  function CrossingOf(t: Topology, a: string, b: string): Result<Crossing, RouteError>
    requires Valid(t)
  {
    var links := LinksBetween(t, t.links, a, b);
    if |links| != 1 then Err(NotUniquelyLinked)
    else
      LinksAreLinks(t, t.links, a, b);
      var (first, second) := if t.owners[links[0].first] == a then (links[0].first, links[0].second)
                             else (links[0].second, links[0].first);
      if {first, second} !in t.bound then Err(NoBinding) else Ok(Crossing(a, first, b, second))
  }

  lemma {:induction false} LinksAreLinks(t: Topology, links: seq<Link>, a: string, b: string)
    requires forall i :: 0 <= i < |links| ==> links[i].first in t.owners && links[i].second in t.owners
    ensures forall i :: 0 <= i < |LinksBetween(t, links, a, b)| ==>
      var link := LinksBetween(t, links, a, b)[i];
      link.first in t.owners && link.second in t.owners && Joins(t, link, a, b)
  {
    if links != [] {
      LinksAreLinks(t, links[..|links| - 1], a, b);
    }
  }

  /** The crossings of a path, one for each pair of neighbours. */
  function Crossings(t: Topology, path: seq<string>): Result<seq<Crossing>, RouteError>
    requires Valid(t)
  {
    if |path| <= 1 then Ok([])
    else
      var rest := path[..|path| - 1];
      match Crossings(t, rest)
      case Err(e) => Err(e)
      case Ok(crossings) =>
        match CrossingOf(t, rest[|rest| - 1], path[|path| - 1])
        case Err(e) => Err(e)
        case Ok(crossing) => Ok(crossings + [crossing])
  }

  /** Two boundaries a crossing: out of the first component, into the second. */
  function LegBoundaries(leg: Leg, crossings: seq<Crossing>): seq<Boundary> {
    if crossings == [] then []
    else
      var (rest, c) := (LegBoundaries(leg, crossings[..|crossings| - 1]), crossings[|crossings| - 1]);
      var out := rest + [Boundary(leg, |rest| + 1, c.first, c.firstEnd, Egress)];
      out + [Boundary(leg, |out| + 1, c.second, c.secondEnd, Ingress)]
  }

  function Reversed(crossings: seq<Crossing>): (r: seq<Crossing>)
    ensures |r| == |crossings|
    ensures forall i :: 0 <= i < |r| ==> r[i] == Back(crossings[|r| - 1 - i])
  {
    if crossings == [] then [] else [Back(crossings[|crossings| - 1])] + Reversed(crossings[..|crossings| - 1])
  }

  predicate NoRepeats(path: seq<string>) { forall i, j :: 0 <= i < j < |path| ==> path[i] != path[j] }

  function RouteBoundaries(t: Topology, route: string): Result<seq<Boundary>, RouteError>
    requires Valid(t)
  {
    if route !in t.routes then Err(NoRoute)
    else if !NoRepeats(t.routes[route]) then Err(RepeatedComponent)
    else if !(forall i :: 0 <= i < |t.routes[route]| ==> t.routes[route][i] in t.components) then Err(UnknownComponent)
    else
      match Crossings(t, t.routes[route])
      case Err(e) => Err(e)
      case Ok(crossings) => Ok(LegBoundaries(Request, crossings) + LegBoundaries(Reply, Reversed(crossings)))
  }

  // ----- closed forms -----

  lemma {:induction false} CrossingsLaw(t: Topology, path: seq<string>)
    requires Valid(t) && |path| >= 1 && Crossings(t, path).Ok?
    ensures var crossings := Crossings(t, path).value;
      && |crossings| == |path| - 1
      && forall i :: 0 <= i < |crossings| ==>
           crossings[i].first == path[i] && crossings[i].second == path[i + 1] && Owned(t, crossings[i])
  {
    hide CrossingOf;
    if |path| > 1 {
      var rest := path[..|path| - 1];
      CrossingsLaw(t, rest);
      CrossingLaw(t, rest[|rest| - 1], path[|path| - 1]);
    }
  }

  predicate Owned(t: Topology, c: Crossing) {
    && c.firstEnd in t.owners && t.owners[c.firstEnd] == c.first
    && c.secondEnd in t.owners && t.owners[c.secondEnd] == c.second
  }

  lemma CrossingLaw(t: Topology, a: string, b: string)
    requires Valid(t) && CrossingOf(t, a, b).Ok?
    ensures var c := CrossingOf(t, a, b).value; c.first == a && c.second == b && Owned(t, c)
  {
    var link := LinksBetween(t, t.links, a, b)[0];
    LinksAreLinks(t, t.links, a, b);
    var owners := {t.owners[link.first], t.owners[link.second]};
    assert t.owners[link.first] in owners && t.owners[link.second] in owners && a in owners && b in owners;
  }

  /** A crossing seen where the message leaves, or where it enters. */
  function Side(leg: Leg, position: nat, c: Crossing, leaving: bool): Boundary {
    if leaving then Boundary(leg, position, c.first, c.firstEnd, Egress)
    else Boundary(leg, position, c.second, c.secondEnd, Ingress)
  }

  /** The two boundaries of crossing `k`. */
  predicate PairAt(leg: Leg, crossings: seq<Crossing>, bs: seq<Boundary>, k: nat)
    requires |bs| == 2 * |crossings| && k < |crossings|
  {
    bs[2 * k] == Side(leg, 2 * k + 1, crossings[k], true) && bs[2 * k + 1] == Side(leg, 2 * k + 2, crossings[k], false)
  }

  predicate LegForm(leg: Leg, crossings: seq<Crossing>, bs: seq<Boundary>) {
    |bs| == 2 * |crossings| && forall k :: 0 <= k < |crossings| ==> PairAt(leg, crossings, bs, k)
  }

  lemma {:induction false} LegLaw(leg: Leg, crossings: seq<Crossing>)
    ensures LegForm(leg, crossings, LegBoundaries(leg, crossings))
  {
    if crossings != [] {
      var before := crossings[..|crossings| - 1];
      LegLaw(leg, before);
      var (rest, bs) := (LegBoundaries(leg, before), LegBoundaries(leg, crossings));
      forall k | 0 <= k < |crossings| ensures PairAt(leg, crossings, bs, k) {
        if k < |before| {
          assert PairAt(leg, before, rest, k);
        }
      }
    }
  }

  // ----- route mirroring -----

  predicate DistinctKeys(bs: seq<Boundary>) {
    forall i, j :: 0 <= i < j < |bs| ==>
      KeyOf(bs[i]) != KeyOf(bs[j]) && !(bs[i].leg == bs[j].leg && bs[i].position == bs[j].position)
  }

  /** Boundary i of the request leg, and the boundaries of the reply leg that go with it. */
  predicate MirroredAt(bs: seq<Boundary>, half: nat, i: nat)
    requires |bs| == 2 * half && i < half
  {
    var (ahead, reply, opposite) := (bs[i], bs[half + i], bs[half - 1 - i]);
    && ahead.leg == Request && reply.leg == Reply && ahead.position == i + 1 && reply.position == i + 1
    && reply.component == opposite.component && reply.interface == opposite.interface
    && reply.direction == Flip(opposite.direction)
  }

  /** The second half is the first half read backwards with every direction flipped. */
  predicate Mirrored(bs: seq<Boundary>, half: nat) {
    |bs| == 2 * half && forall i :: 0 <= i < half ==> MirroredAt(bs, half, i)
  }

  /** Every accepted route of n components has 2(n-1) boundaries a leg, the reply leg mirrors
      the request leg, all keys differ, and each interface belongs to its component. */
  lemma RouteMirroring(t: Topology, route: string)
    requires Valid(t) && RouteBoundaries(t, route).Ok?
    ensures var bs := RouteBoundaries(t, route).value;
      && Mirrored(bs, 2 * (|t.routes[route]| - 1)) && DistinctKeys(bs)
      && forall i :: 0 <= i < |bs| ==>
           bs[i].component in t.components && bs[i].interface in t.owners
             && t.owners[bs[i].interface] == bs[i].component
  {
    hide Crossings, LegBoundaries, Reversed, MirroredAt, LegForm;
    var path := t.routes[route];
    CrossingsLaw(t, path);
    var crossings := Crossings(t, path).value;
    var (a, b) := (LegBoundaries(Request, crossings), LegBoundaries(Reply, Reversed(crossings)));
    LegLaw(Request, crossings);
    LegLaw(Reply, Reversed(crossings));
    LegMirrors(crossings, a, b);
    KeysDiffer(path, crossings, a, b);
    LegOwned(t, Request, crossings, a);
    LegOwned(t, Reply, Reversed(crossings), b);
  }

  /** The request leaves component k of the path and enters component k+1. */
  predicate PairAlong(bs: seq<Boundary>, path: seq<string>, k: nat)
    requires 2 * k + 1 < |bs| && k + 1 < |path|
  {
    && bs[2 * k].component == path[k] && bs[2 * k].direction == Egress
    && bs[2 * k + 1].component == path[k + 1] && bs[2 * k + 1].direction == Ingress
  }

  lemma RouteAlongPath(t: Topology, route: string)
    requires Valid(t) && RouteBoundaries(t, route).Ok?
    ensures var (bs, path) := (RouteBoundaries(t, route).value, t.routes[route]);
      |bs| == 4 * (|path| - 1) && forall k :: 0 <= k < |path| - 1 ==> PairAlong(bs, path, k)
  {
    hide Crossings, LegBoundaries, Reversed;
    var path := t.routes[route];
    CrossingsLaw(t, path);
    var crossings := Crossings(t, path).value;
    LegLaw(Request, crossings);
    LegLaw(Reply, Reversed(crossings));
    var bs := RouteBoundaries(t, route).value;
    forall k | 0 <= k < |path| - 1 ensures PairAlong(bs, path, k) {
      assert PairAt(Request, crossings, LegBoundaries(Request, crossings), k);
    }
  }

  lemma LegOwned(t: Topology, leg: Leg, crossings: seq<Crossing>, bs: seq<Boundary>)
    requires LegForm(leg, crossings, bs) && Valid(t) && forall k :: 0 <= k < |crossings| ==> Owned(t, crossings[k])
    ensures forall i :: 0 <= i < |bs| ==>
      bs[i].component in t.components && bs[i].interface in t.owners && t.owners[bs[i].interface] == bs[i].component
  {
    forall i | 0 <= i < |bs|
      ensures bs[i].component in t.components && bs[i].interface in t.owners
        && t.owners[bs[i].interface] == bs[i].component
    {
      assert PairAt(leg, crossings, bs, i / 2) && Owned(t, crossings[i / 2]);
      assert i == 2 * (i / 2) || i == 2 * (i / 2) + 1;
    }
  }

  lemma LegMirrors(crossings: seq<Crossing>, a: seq<Boundary>, b: seq<Boundary>)
    requires LegForm(Request, crossings, a) && LegForm(Reply, Reversed(crossings), b)
    ensures Mirrored(a + b, 2 * |crossings|)
  {
    var (half, m) := (2 * |crossings|, |crossings|);
    forall i | 0 <= i < half ensures MirroredAt(a + b, half, i) {
      var k := i / 2;
      assert PairAt(Request, crossings, a, k) && PairAt(Reply, Reversed(crossings), b, k)
             && PairAt(Request, crossings, a, m - 1 - k);
      hide PairAt, Reversed;
      MirrorPair(crossings, a, b, k);
      assert i == 2 * k || i == 2 * k + 1;
    }
  }

  lemma MirrorPair(crossings: seq<Crossing>, a: seq<Boundary>, b: seq<Boundary>, k: nat)
    requires |a| == |b| == 2 * |crossings| && |Reversed(crossings)| == |crossings| && k < |crossings|
    requires PairAt(Request, crossings, a, k) && PairAt(Reply, Reversed(crossings), b, k)
    requires PairAt(Request, crossings, a, |crossings| - 1 - k)
    ensures MirroredAt(a + b, 2 * |crossings|, 2 * k) && MirroredAt(a + b, 2 * |crossings|, 2 * k + 1)
  {
    hide MirroredAt, Side, Back, Reversed;
    var (ahead, opposite) := (crossings[k], crossings[|crossings| - 1 - k]);
    assert Reversed(crossings)[k] == Back(opposite);
    MirrorSides(ahead, opposite, a, b, k, |crossings| - 1 - k);
  }

  /** Crossed backwards, each side is the other side with its direction flipped. */
  lemma MirrorSides(ahead: Crossing, opposite: Crossing, a: seq<Boundary>, b: seq<Boundary>, k: nat, j: nat)
    requires |a| == |b| == 2 * (k + j + 1)
    requires a[2 * k] == Side(Request, 2 * k + 1, ahead, true) && a[2 * k + 1] == Side(Request, 2 * k + 2, ahead, false)
    requires a[2 * j] == Side(Request, 2 * j + 1, opposite, true)
    requires a[2 * j + 1] == Side(Request, 2 * j + 2, opposite, false)
    requires b[2 * k] == Side(Reply, 2 * k + 1, Back(opposite), true)
    requires b[2 * k + 1] == Side(Reply, 2 * k + 2, Back(opposite), false)
    ensures MirroredAt(a + b, |a|, 2 * k) && MirroredAt(a + b, |a|, 2 * k + 1)
  {
    var (bs, half) := (a + b, |a|);
    assert bs[half + 2 * k] == b[2 * k] && bs[half + (2 * k + 1)] == b[2 * k + 1];
    assert half - 1 - 2 * k == 2 * j + 1 && half - 1 - (2 * k + 1) == 2 * j;
  }

  predicate Follows(path: seq<string>, crossings: seq<Crossing>) {
    |path| == |crossings| + 1
    && forall k :: 0 <= k < |crossings| ==> crossings[k].first == path[k] && crossings[k].second == path[k + 1]
  }

  lemma KeysDiffer(path: seq<string>, crossings: seq<Crossing>, a: seq<Boundary>, b: seq<Boundary>)
    requires NoRepeats(path) && Follows(path, crossings)
    requires LegForm(Request, crossings, a) && LegForm(Reply, Reversed(crossings), b)
    ensures DistinctKeys(a + b)
  {
    hide KeyOf, Reversed, LegForm;
    var back := seq(|path|, i requires 0 <= i < |path| => path[|path| - 1 - i]);
    BackFollows(path, crossings, back);
    forall i, j | 0 <= i < j < |a + b|
      ensures KeyOf((a + b)[i]) != KeyOf((a + b)[j])
      ensures !((a + b)[i].leg == (a + b)[j].leg && (a + b)[i].position == (a + b)[j].position)
    {
      var m := |a|;
      if j < m {
        LegKeys(Request, path, crossings, a, i, j);
      } else if i >= m {
        LegKeys(Reply, back, Reversed(crossings), b, i - m, j - m);
      } else {
        LegNames(Request, crossings, a, i);
        LegNames(Reply, Reversed(crossings), b, j - m);
      }
    }
  }

  lemma LegNames(leg: Leg, crossings: seq<Crossing>, bs: seq<Boundary>, i: nat)
    requires LegForm(leg, crossings, bs) && i < |bs|
    ensures bs[i].leg == leg && KeyOf(bs[i]).leg == leg && bs[i].position == i + 1
  {
    assert PairAt(leg, crossings, bs, i / 2);
    assert i == 2 * (i / 2) || i == 2 * (i / 2) + 1;
  }

  /** On one leg a component is left once and entered once. */
  lemma LegKeys(leg: Leg, path: seq<string>, crossings: seq<Crossing>, bs: seq<Boundary>, i: nat, j: nat)
    requires NoRepeats(path) && Follows(path, crossings) && LegForm(leg, crossings, bs) && i < j < |bs|
    ensures KeyOf(bs[i]) != KeyOf(bs[j]) && bs[i].position != bs[j].position
  {
    var (x, y) := (i / 2, j / 2);
    assert PairAt(leg, crossings, bs, x) && PairAt(leg, crossings, bs, y);
    hide LegForm;
    assert i == 2 * x || i == 2 * x + 1;
    assert j == 2 * y || j == 2 * y + 1;
    assert crossings[x].first == path[x] && crossings[x].second == path[x + 1];
    assert crossings[y].first == path[y] && crossings[y].second == path[y + 1];
  }

  lemma BackFollows(path: seq<string>, crossings: seq<Crossing>, back: seq<string>)
    requires NoRepeats(path) && Follows(path, crossings) && |back| == |path|
    requires forall i :: 0 <= i < |path| ==> back[i] == path[|path| - 1 - i]
    ensures NoRepeats(back) && Follows(back, Reversed(crossings))
  {
  }

  // ----- which routes there are -----

  /** Link `l` of the topology is the one link between the two components. */
  predicate OnlyLink(t: Topology, a: string, b: string, l: nat)
    requires Valid(t)
  {
    && l < |t.links| && LinkOf(t, t.links, a, b, l)
    && forall m :: 0 <= m < |t.links| && LinkOf(t, t.links, a, b, m) ==> m == l
  }

  predicate LinkOf(t: Topology, links: seq<Link>, a: string, b: string, l: nat)
    requires forall i :: 0 <= i < |links| ==> links[i].first in t.owners && links[i].second in t.owners
    requires l < |links|
  {
    var (x, y) := (t.owners[links[l].first], t.owners[links[l].second]);
    (x == a && y == b) || (x == b && y == a)
  }

  /** The components have one link between them, and it is bound to interfaces. */
  predicate Linked(t: Topology, a: string, b: string)
    requires Valid(t)
  {
    exists l :: 0 <= l < |t.links| && OnlyLink(t, a, b, l) && {t.links[l].first, t.links[l].second} in t.bound
  }

  lemma {:induction false} LinksBetweenMeans(t: Topology, links: seq<Link>, a: string, b: string)
    returns (places: seq<nat>)
    requires forall i :: 0 <= i < |links| ==> links[i].first in t.owners && links[i].second in t.owners
    ensures |places| == |LinksBetween(t, links, a, b)|
    ensures forall n :: 0 <= n < |places| ==> places[n] < |links| && LinksBetween(t, links, a, b)[n] == links[places[n]]
    ensures forall n, m :: 0 <= n < m < |places| ==> places[n] < places[m]
    ensures forall l :: 0 <= l < |links| ==> (l in places <==> LinkOf(t, links, a, b, l))
  {
    if links == [] {
      places := [];
    } else {
      var (n, rest) := (|links| - 1, links[..|links| - 1]);
      places := LinksBetweenMeans(t, rest, a, b);
      JoinsMeans(t, links, a, b, n);
      if Joins(t, links[n], a, b) {
        places := places + [n];
      }
      hide Joins;
      forall l | 0 <= l < |links| ensures l in places <==> LinkOf(t, links, a, b, l) {
        if l < n {
          assert LinkOf(t, rest, a, b, l) <==> LinkOf(t, links, a, b, l);
        }
      }
    }
  }

  lemma JoinsMeans(t: Topology, links: seq<Link>, a: string, b: string, l: nat)
    requires forall i :: 0 <= i < |links| ==> links[i].first in t.owners && links[i].second in t.owners
    requires l < |links|
    ensures Joins(t, links[l], a, b) <==> LinkOf(t, links, a, b, l)
  {
    var (x, y) := (t.owners[links[l].first], t.owners[links[l].second]);
    if {x, y} == {a, b} {
      assert x in {a, b} && y in {a, b} && a in {x, y} && b in {x, y};
    }
  }

  /** Two components are crossed exactly when they are linked, by the two ends of their link. */
  lemma CrossingMeans(t: Topology, a: string, b: string)
    requires Valid(t)
    ensures CrossingOf(t, a, b).Ok? <==> Linked(t, a, b)
    ensures CrossingOf(t, a, b).Ok? ==>
      var c := CrossingOf(t, a, b).value;
      exists l: nat :: OnlyLink(t, a, b, l) && {c.firstEnd, c.secondEnd} == {t.links[l].first, t.links[l].second}
  {
    UniqueMeans(t, a, b);
    LinksAreLinks(t, t.links, a, b);
    hide LinksBetween, OnlyLink, Joins;
    var links := LinksBetween(t, t.links, a, b);
    if |links| == 1 {
      var l :| 0 <= l < |t.links| && OnlyLink(t, a, b, l) && links[0] == t.links[l];
      assert {t.links[l].second, t.links[l].first} == {t.links[l].first, t.links[l].second};
      forall m | 0 <= m < |t.links| && OnlyLink(t, a, b, m) ensures m == l {
        OneOnlyLink(t, a, b, l, m);
      }
    }
  }

  lemma OneOnlyLink(t: Topology, a: string, b: string, l: nat, m: nat)
    requires Valid(t) && OnlyLink(t, a, b, l) && OnlyLink(t, a, b, m)
    ensures l == m
  {
  }

  lemma UniqueMeans(t: Topology, a: string, b: string)
    requires Valid(t)
    ensures var links := LinksBetween(t, t.links, a, b);
      && (|links| == 1 <==> exists l :: 0 <= l < |t.links| && OnlyLink(t, a, b, l))
      && (|links| == 1 ==> exists l :: 0 <= l < |t.links| && OnlyLink(t, a, b, l) && links[0] == t.links[l])
  {
    hide LinksBetween, OnlyLink;
    if |LinksBetween(t, t.links, a, b)| == 1 {
      var l := TheOnlyLink(t, a, b);
    }
    if l :| 0 <= l < |t.links| && OnlyLink(t, a, b, l) {
      OneBetween(t, a, b, l);
    }
  }

  lemma TheOnlyLink(t: Topology, a: string, b: string) returns (l: nat)
    requires Valid(t) && |LinksBetween(t, t.links, a, b)| == 1
    ensures l < |t.links| && OnlyLink(t, a, b, l) && LinksBetween(t, t.links, a, b)[0] == t.links[l]
  {
    var places := LinksBetweenMeans(t, t.links, a, b);
    hide LinksBetween, LinkOf;
    l := places[0];
    assert l in places;
  }

  lemma OneBetween(t: Topology, a: string, b: string, l: nat)
    requires Valid(t) && OnlyLink(t, a, b, l)
    ensures |LinksBetween(t, t.links, a, b)| == 1
  {
    var places := LinksBetweenMeans(t, t.links, a, b);
    hide LinksBetween, LinkOf;
    assert l in places;
    forall n | 0 <= n < |places| ensures places[n] == l {
      assert places[n] in places;
    }
    AllOne(places, l);
  }

  lemma AllOne(places: seq<nat>, l: nat)
    requires l in places && forall n :: 0 <= n < |places| ==> places[n] == l
    requires forall n, m :: 0 <= n < m < |places| ==> places[n] < places[m]
    ensures |places| == 1
  {
    if |places| > 1 {
      Rises(places, 0, 1);
    }
  }

  lemma Rises(places: seq<nat>, i: nat, j: nat)
    requires i < j < |places| && forall n, m :: 0 <= n < m < |places| ==> places[n] < places[m]
    ensures places[i] < places[j]
  {
  }

  lemma {:induction false} CrossingsMean(t: Topology, path: seq<string>)
    requires Valid(t) && |path| >= 1
    ensures Crossings(t, path).Ok? <==> forall k :: 0 <= k < |path| - 1 ==> Linked(t, path[k], path[k + 1])
    ensures Crossings(t, path).Ok? ==>
      && |Crossings(t, path).value| == |path| - 1
      && forall k :: 0 <= k < |path| - 1 ==> CrossingOf(t, path[k], path[k + 1]) == Ok(Crossings(t, path).value[k])
  {
    hide CrossingOf, Linked;
    if |path| > 1 {
      var (rest, n) := (path[..|path| - 1], |path| - 2);
      CrossingsMean(t, rest);
      CrossingMeans(t, path[n], path[n + 1]);
      assert forall k :: 0 <= k <= n ==> rest[k] == path[k];
    }
  }

  /** A route is accepted exactly when it is configured, repeats no component, knows all its
      components and every two neighbours are linked; it crosses at the two ends of their link. */
  lemma RouteMeans(t: Topology, route: string)
    requires Valid(t)
    ensures RouteBoundaries(t, route).Ok? <==>
      && route in t.routes
      && var path := t.routes[route];
         && (forall i, j :: 0 <= i < j < |path| ==> path[i] != path[j])
         && (forall i :: 0 <= i < |path| ==> path[i] in t.components)
         && forall k :: 0 <= k < |path| - 1 ==> Linked(t, path[k], path[k + 1])
    ensures RouteBoundaries(t, route).Ok? ==>
      var (bs, path) := (RouteBoundaries(t, route).value, t.routes[route]);
      |bs| == 4 * (|path| - 1) && forall k :: 0 <= k < |path| - 1 ==> CrossesLink(t, bs, path, k)
  {
    hide Crossings, LegBoundaries, Reversed, CrossingOf, Linked;
    if route in t.routes {
      var path := t.routes[route];
      CrossingsMean(t, path);
      if RouteBoundaries(t, route).Ok? {
        var crossings := Crossings(t, path).value;
        LegLaw(Request, crossings);
        LegLaw(Reply, Reversed(crossings));
        forall k | 0 <= k < |path| - 1 ensures CrossesLink(t, RouteBoundaries(t, route).value, path, k) {
          CrossingMeans(t, path[k], path[k + 1]);
          assert PairAt(Request, crossings, LegBoundaries(Request, crossings), k);
        }
      }
    }
  }

  /** The request leg crosses from component k to the next at the two ends of their one link. */
  predicate CrossesLink(t: Topology, bs: seq<Boundary>, path: seq<string>, k: nat)
    requires Valid(t) && 2 * k + 1 < |bs| && k + 1 < |path|
  {
    exists l :: 0 <= l < |t.links| && OnlyLink(t, path[k], path[k + 1], l)
      && {bs[2 * k].interface, bs[2 * k + 1].interface} == {t.links[l].first, t.links[l].second}
  }

  // ----- the derivation as the source runs it -----

  method CrossPath(t: Topology, path: seq<string>) returns (result: Result<seq<Crossing>, RouteError>)
    requires Valid(t) && |path| >= 1
    ensures result == Crossings(t, path)
  {
    hide CrossingOf;
    var crossings := [];
    for i := 1 to |path|
      invariant Crossings(t, path[..i]) == Ok(crossings)
    {
      assert path[..i + 1][..i] == path[..i];
      var crossing := CrossingOf(t, path[i - 1], path[i]);
      if crossing.Err? {
        FirstBadCrossing(t, path, i + 1);
        return Err(crossing.error);
      }
      crossings := crossings + [crossing.value];
    }
    assert path[..|path|] == path;
    return Ok(crossings);
  }

  lemma {:induction false} FirstBadCrossing(t: Topology, path: seq<string>, k: nat)
    requires Valid(t) && k <= |path| && Crossings(t, path[..k]).Err?
    ensures Crossings(t, path) == Crossings(t, path[..k])
  {
    hide CrossingOf;
    if k == |path| {
      assert path[..k] == path;
    } else {
      assert path[..|path| - 1][..k] == path[..k];
      FirstBadCrossing(t, path[..|path| - 1], k);
    }
  }

  method BoundariesForCrossings(leg: Leg, crossings: seq<Crossing>) returns (boundaries: seq<Boundary>)
    ensures boundaries == LegBoundaries(leg, crossings)
  {
    boundaries := [];
    for i := 0 to |crossings|
      invariant boundaries == LegBoundaries(leg, crossings[..i])
    {
      assert crossings[..i + 1][..i] == crossings[..i];
      var c := crossings[i];
      boundaries := boundaries + [Boundary(leg, |boundaries| + 1, c.first, c.firstEnd, Egress)];
      boundaries := boundaries + [Boundary(leg, |boundaries| + 1, c.second, c.secondEnd, Ingress)];
    }
    assert crossings[..|crossings|] == crossings;
  }

  method DeriveBoundaries(t: Topology, route: string) returns (result: Result<seq<Boundary>, RouteError>)
    requires Valid(t)
    ensures result == RouteBoundaries(t, route)
  {
    hide Crossings, LegBoundaries, Reversed;
    if route !in t.routes { return Err(NoRoute); }
    var path := t.routes[route];
    if !NoRepeats(path) { return Err(RepeatedComponent); }
    if !(forall i :: 0 <= i < |path| ==> path[i] in t.components) { return Err(UnknownComponent); }
    var crossings := CrossPath(t, path);
    if crossings.Err? { return Err(crossings.error); }
    var request := BoundariesForCrossings(Request, crossings.value);
    var reply := BoundariesForCrossings(Reply, Reversed(crossings.value));
    return Ok(request + reply);
  }
}
