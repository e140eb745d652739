/** Rotor angle and speed from three Hall sensors: field-oriented/src/estimation/hall_estimation.rs. */
module Hall {
  import opened Angles
  import opened FocTypes
  import opened Reals
  import opened Transforms
  import opened Wrappers

  const SECTORS := 6

  // ---- Sorting the calibration ----

  datatype Edge = Edge(angle: real, pattern: nat)

  predicate Sorted(s: seq<Edge>) {
    forall i, j :: 0 <= i < j < |s| ==> s[i].angle <= s[j].angle
  }

  /** Sorted, but for the edge at `j`, which only precedes what comes after it. */
  predicate SortedBut(s: seq<Edge>, j: nat) {
    && (forall p, q :: 0 <= p < q < |s| && p != j && q != j ==> s[p].angle <= s[q].angle)
    && (forall q :: j < q < |s| ==> j < |s| && s[j].angle <= s[q].angle)
  }

  function Swapped(s: seq<Edge>, j: nat): seq<Edge>
    requires 0 < j < |s|
  {
    s[j := s[j - 1]][j - 1 := s[j]]
  }

  lemma SwapKeeps(s: seq<Edge>, i: nat, j: nat)
    requires 0 < j <= i < |s| && SortedBut(s[..i + 1], j) && s[j].angle < s[j - 1].angle
    ensures SortedBut(Swapped(s, j)[..i + 1], j - 1) && multiset(Swapped(s, j)) == multiset(s)
    ensures Swapped(s, j)[i + 1..] == s[i + 1..]
  {
  }

  method InsertEdge(edges: array<Edge>, i: nat)
    requires 0 < i < edges.Length && Sorted(edges[..i])
    modifies edges
    ensures Sorted(edges[..i + 1]) && multiset(edges[..]) == multiset(old(edges[..]))
    ensures edges[i + 1..] == old(edges[i + 1..])
  {
    var j := i;
    assert SortedBut(edges[..][..i + 1], j);
    while j > 0 && edges[j].angle < edges[j - 1].angle
      invariant 0 <= j <= i && SortedBut(edges[..][..i + 1], j)
      invariant multiset(edges[..]) == multiset(old(edges[..])) && edges[..][i + 1..] == old(edges[..])[i + 1..]
    {
      SwapKeeps(edges[..], i, j);
      label L:
      edges[j], edges[j - 1] := edges[j - 1], edges[j];
      assert edges[..] == Swapped(old@L(edges[..]), j);
      j := j - 1;
      hide SortedBut, Swapped;
    }
    SortedWhenPlaced(edges[..][..i + 1], j);
  }

  lemma SortedWhenPlaced(s: seq<Edge>, j: nat)
    requires j < |s| && SortedBut(s, j) && (j == 0 || s[j - 1].angle <= s[j].angle)
    ensures Sorted(s)
  {
  }

  /** Insertion sort, in place. */
  method SortByAngle(edges: array<Edge>)
    requires edges.Length == SECTORS
    modifies edges
    ensures Sorted(edges[..]) && multiset(edges[..]) == multiset(old(edges[..]))
  {
    for i := 1 to SECTORS
      invariant Sorted(edges[..i]) && multiset(edges[..]) == multiset(old(edges[..]))
    {
      InsertEdge(edges, i);
    }
    assert edges[..SECTORS] == edges[..];
  }

  /** The edges of a calibration, before sorting. */
  function Edges(calibration: seq<real>): seq<Edge> {
    seq(|calibration|, i requires 0 <= i < |calibration| => Edge(calibration[i], i + 1))
  }

  lemma {:induction false} CountOnce(s: seq<Edge>, e: Edge)
    requires forall i, j :: 0 <= i < j < |s| ==> s[i] != s[j]
    ensures multiset(s)[e] <= 1
  {
    if s != [] {
      assert s == [s[0]] + s[1..];
      CountOnce(s[1..], e);
      assert s[0] !in s[1..];
    }
  }

  lemma CountTwice(s: seq<Edge>, i: nat, j: nat)
    requires i < j < |s| && s[i] == s[j]
    ensures multiset(s)[s[i]] >= 2
  {
    assert s == s[..j] + [s[j]] + s[j + 1..];
    assert s[..j][i] == s[i];
  }

  /** The patterns in the order of their angles. */
  ghost predicate Ordering(order: seq<Edge>, calibration: seq<real>) {
    && |calibration| == SECTORS && |order| == SECTORS && Sorted(order)
    && (forall i :: 0 <= i < SECTORS ==> 1 <= order[i].pattern <= SECTORS)
    && (forall i :: 0 <= i < SECTORS ==> order[i].angle == calibration[order[i].pattern - 1])
    && (forall i, j :: 0 <= i < j < SECTORS ==> order[i].pattern != order[j].pattern)
    && (forall k :: 0 <= k < SECTORS ==> Edge(calibration[k], k + 1) in order)
  }

  lemma SortingOrders(order: seq<Edge>, calibration: seq<real>)
    requires |calibration| == SECTORS && |order| == SECTORS
    requires Sorted(order) && multiset(order) == multiset(Edges(calibration))
    ensures Ordering(order, calibration)
  {
    var edges := Edges(calibration);
    forall i | 0 <= i < SECTORS
      ensures 1 <= order[i].pattern <= SECTORS && order[i].angle == calibration[order[i].pattern - 1]
    {
      assert order[i] in multiset(order);
      assert order[i] in edges;
    }
    forall i, j | 0 <= i < j < SECTORS
      ensures order[i].pattern != order[j].pattern
    {
      if order[i].pattern == order[j].pattern {
        CountTwice(order, i, j);
        CountOnce(edges, order[i]);
      }
    }
    forall k | 0 <= k < SECTORS
      ensures Edge(calibration[k], k + 1) in order
    {
      assert edges[k] == Edge(calibration[k], k + 1);
      assert edges[k] in multiset(edges);
    }
  }

  // ---- The tables ----

  /** By pattern, from index 0 for pattern 1. */
  datatype HallTables = HallTables(
    theta: seq<real>, span: seq<real>, spanReciprocal: seq<real>, forwardNext: seq<nat>)

  function After(i: nat): nat {
    if i + 1 == SECTORS then 0 else i + 1
  }

  function SpanReciprocal(span: real): real {
    if span > 0.0 then 1.0 / span else 0.0
  }

  /** The tables hold for the pattern at `i` of the order the next pattern and the way to it. */
  ghost predicate Leads(t: HallTables, order: seq<Edge>, i: nat)
    requires |order| == SECTORS && i < SECTORS && 1 <= order[i].pattern <= SECTORS
    requires |t.span| == |t.spanReciprocal| == |t.forwardNext| == SECTORS
  {
    var here, next, k := order[i], order[After(i)], order[i].pattern - 1;
    && t.forwardNext[k] == next.pattern
    && t.span[k] == Forward(here.angle, next.angle)
    && t.spanReciprocal[k] == SpanReciprocal(t.span[k])
  }

  ghost predicate TablesOf(t: HallTables, calibration: seq<real>, order: seq<Edge>) {
    && Ordering(order, calibration) && t.theta == calibration
    && |t.span| == |t.spanReciprocal| == |t.forwardNext| == SECTORS
    && (forall i :: 0 <= i < SECTORS ==> Leads(t, order, i))
  }

  ghost predicate Tabulates(t: HallTables, calibration: seq<real>) {
    exists order :: TablesOf(t, calibration, order)
  }

  /** The calibrations the estimator is for: six different angles within a turn. */
  predicate Distinct(calibration: seq<real>) {
    && |calibration| == SECTORS
    && (forall i :: 0 <= i < SECTORS ==> 0.0 <= calibration[i] < TAU)
    && (forall i, j :: 0 <= i < j < SECTORS ==> calibration[i] != calibration[j])
  }

  predicate Pattern(p: int) {
    1 <= p <= SECTORS
  }

  lemma Position(t: HallTables, calibration: seq<real>, order: seq<Edge>, p: nat) returns (i: nat)
    requires TablesOf(t, calibration, order) && Pattern(p)
    ensures i < SECTORS && order[i] == Edge(calibration[p - 1], p) && Leads(t, order, i)
  {
    assert Edge(calibration[p - 1], p) in order;
    i :| 0 <= i < SECTORS && order[i] == Edge(calibration[p - 1], p);
  }

  /** The entry of a pattern in the tables, from its place in the order. */
  lemma Entry(t: HallTables, calibration: seq<real>, order: seq<Edge>, p: nat) returns (i: nat)
    requires TablesOf(t, calibration, order) && Pattern(p)
    ensures i < SECTORS && |order| == |t.forwardNext| == |t.span| == |t.spanReciprocal| == |calibration| == SECTORS
    ensures order[i] == Edge(calibration[p - 1], p) && t.forwardNext[p - 1] == order[After(i)].pattern
    ensures t.span[p - 1] == Forward(calibration[p - 1], order[After(i)].angle)
    ensures t.spanReciprocal[p - 1] == SpanReciprocal(t.span[p - 1])
  {
    Shape(t, calibration, order);
    i := Position(t, calibration, order, p);
    hide TablesOf, Ordering, Forward, SpanReciprocal;
  }

  lemma StrictlySorted(calibration: seq<real>, order: seq<Edge>, i: nat, j: nat)
    requires Ordering(order, calibration) && Distinct(calibration) && i < j < SECTORS
    ensures order[i].angle < order[j].angle
  {
    assert order[i].pattern != order[j].pattern;
  }

  lemma Shape(t: HallTables, calibration: seq<real>, order: seq<Edge>)
    requires TablesOf(t, calibration, order)
    ensures t.theta == calibration && Ordering(order, calibration)
    ensures |order| == |calibration| == |t.span| == |t.spanReciprocal| == |t.forwardNext| == SECTORS
  {
  }

  lemma EdgeFacts(calibration: seq<real>, order: seq<Edge>, i: nat)
    requires Ordering(order, calibration) && Distinct(calibration) && i < SECTORS
    ensures Pattern(order[i].pattern) && 0.0 <= order[i].angle < TAU
    ensures order[i].angle == calibration[order[i].pattern - 1]
    ensures i < SECTORS - 1 ==> order[i + 1].pattern != order[i].pattern
    ensures i > 0 ==> order[0].pattern != order[i].pattern
  {
  }

  /** No edge is nearer in the forward direction than the next one in the order. */
  lemma NextInOrder(calibration: seq<real>, order: seq<Edge>, i: nat, j: nat)
    requires Ordering(order, calibration) && Distinct(calibration) && i < SECTORS && j < SECTORS && i != j
    ensures 0.0 < Forward(order[i].angle, order[After(i)].angle) < TAU
    ensures Forward(order[i].angle, order[After(i)].angle) <= Forward(order[i].angle, order[j].angle)
  {
    EdgeFacts(calibration, order, i);
    EdgeFacts(calibration, order, j);
    EdgeFacts(calibration, order, After(i));
    if After(i) == 0 {
      StrictlySorted(calibration, order, 0, i);
      if j > 0 {
        StrictlySorted(calibration, order, 0, j);
      }
      StrictlySorted(calibration, order, j, i);
    } else {
      StrictlySorted(calibration, order, i, i + 1);
      if j < i {
        StrictlySorted(calibration, order, j, i);
      } else if j > i + 1 {
        StrictlySorted(calibration, order, i + 1, j);
      }
    }
    hide Ordering, Distinct;
  }

  /** The successor of a pattern is the nearest pattern in the forward direction, and the span is the way there. */
  lemma NextIsNearest(t: HallTables, calibration: seq<real>, order: seq<Edge>, p: nat, other: nat) returns (next: nat)
    requires TablesOf(t, calibration, order) && Distinct(calibration)
    requires Pattern(p) && Pattern(other) && other != p
    ensures next == t.forwardNext[p - 1] && Pattern(next) && next != p
    ensures t.span[p - 1] == Forward(calibration[p - 1], calibration[next - 1])
    ensures 0.0 < t.span[p - 1] < TAU
    ensures t.span[p - 1] <= Forward(calibration[p - 1], calibration[other - 1])
  {
    Shape(t, calibration, order);
    hide TablesOf, Ordering, Distinct, Forward, Leads, SpanReciprocal;
    var i := Entry(t, calibration, order, p);
    var j := Entry(t, calibration, order, other);
    NextInOrder(calibration, order, i, j);
    EdgeFacts(calibration, order, i);
    EdgeFacts(calibration, order, After(i));
    next := order[After(i)].pattern;
  }

  // ---- Once around ----

  /** The pattern `n` transitions after `p`. */
  ghost function Orbit(t: HallTables, p: nat, n: nat): nat
    requires |t.forwardNext| == SECTORS
  {
    if n == 0 then p
    else
      var before := Orbit(t, p, n - 1);
      if Pattern(before) then t.forwardNext[before - 1] else 0
  }

  /** The angle travelled in `n` transitions from `p`. */
  ghost function Travel(t: HallTables, p: nat, n: nat): real
    requires |t.forwardNext| == |t.span| == SECTORS
  {
    if n == 0 then 0.0
    else
      var before := Orbit(t, p, n - 1);
      Travel(t, p, n - 1) + if Pattern(before) then t.span[before - 1] else 0.0
  }

  lemma OneMore(t: HallTables, p: nat, n: nat, before: nat)
    requires |t.forwardNext| == |t.span| == SECTORS && Orbit(t, p, n) == before && Pattern(before)
    ensures Orbit(t, p, n + 1) == t.forwardNext[before - 1]
    ensures Travel(t, p, n + 1) == Travel(t, p, n) + t.span[before - 1]
  {
  }

  function Round(i: nat): nat {
    if i >= SECTORS then i - SECTORS else i
  }

  lemma OneTransition(t: HallTables, calibration: seq<real>, order: seq<Edge>, k: nat)
    requires TablesOf(t, calibration, order) && Distinct(calibration) && k < SECTORS
    ensures Pattern(order[k].pattern)
    ensures t.forwardNext[order[k].pattern - 1] == order[After(k)].pattern
    ensures t.span[order[k].pattern - 1]
         == order[After(k)].angle - order[k].angle + if After(k) == 0 then TAU else 0.0
  {
    assert Leads(t, order, k);
    if After(k) == 0 {
      StrictlySorted(calibration, order, 0, k);
    } else {
      StrictlySorted(calibration, order, k, k + 1);
    }
  }

  /** Where `n` transitions from the pattern at `i` lead, and how far. */
  lemma {:induction false} OrbitFollowsOrder(t: HallTables, calibration: seq<real>, order: seq<Edge>, i: nat, n: nat)
    returns (k: nat)
    requires TablesOf(t, calibration, order) && Distinct(calibration) && i < SECTORS && n <= SECTORS
    ensures k == Round(i + n) < SECTORS && Orbit(t, order[i].pattern, n) == order[k].pattern
    ensures Travel(t, order[i].pattern, n) == order[k].angle - order[i].angle + if i + n >= SECTORS then TAU else 0.0
  {
    assert |t.forwardNext| == |t.span| == |order| == SECTORS;
    hide TablesOf, Distinct;
    if n == 0 {
      k := i;
    } else {
      var before := OrbitFollowsOrder(t, calibration, order, i, n - 1);
      k := After(before);
      OneTransition(t, calibration, order, before);
      OneMore(t, order[i].pattern, n - 1, order[before].pattern);
      hide Orbit, Travel;
    }
  }

  /** From any pattern, every pattern is met within six transitions, and once around is one turn. */
  lemma CycleReaches(t: HallTables, calibration: seq<real>, p: nat, q: nat) returns (n: nat)
    requires Tabulates(t, calibration) && Distinct(calibration) && Pattern(p) && Pattern(q)
    ensures n < SECTORS && Orbit(t, p, n) == q
    ensures Orbit(t, p, SECTORS) == p && Travel(t, p, SECTORS) == TAU
  {
    var order :| TablesOf(t, calibration, order);
    var i := Position(t, calibration, order, p);
    var j := Position(t, calibration, order, q);
    hide *;
    n := ReachedFrom(t, calibration, order, i, j);
  }

  lemma ReachedFrom(t: HallTables, calibration: seq<real>, order: seq<Edge>, i: nat, j: nat) returns (n: nat)
    requires TablesOf(t, calibration, order) && Distinct(calibration) && i < SECTORS && j < SECTORS
    ensures n < SECTORS && Orbit(t, order[i].pattern, n) == order[j].pattern
    ensures Orbit(t, order[i].pattern, SECTORS) == order[i].pattern
    ensures Travel(t, order[i].pattern, SECTORS) == TAU
  {
    n := if j >= i then j - i else j + SECTORS - i;
    var there := OrbitFollowsOrder(t, calibration, order, i, n);
    var back := OrbitFollowsOrder(t, calibration, order, i, SECTORS);
    hide TablesOf, Ordering, Leads, Distinct, Orbit, Travel;
  }

  /** No pattern is met twice on the way: the successor table is a single cycle of six. */
  lemma CycleMeetsOnce(t: HallTables, calibration: seq<real>, p: nat, m: nat, n: nat)
    requires Tabulates(t, calibration) && Distinct(calibration) && Pattern(p) && m < SECTORS && n < SECTORS
    ensures Orbit(t, p, m) == Orbit(t, p, n) <==> m == n
  {
    var order :| TablesOf(t, calibration, order);
    var i := Position(t, calibration, order, p);
    var a := OrbitFollowsOrder(t, calibration, order, i, m);
    var b := OrbitFollowsOrder(t, calibration, order, i, n);
    hide Leads, Distinct, Orbit, Travel, Tabulates, Ordering, TablesOf;
    if Orbit(t, p, m) == Orbit(t, p, n) {
      SamePlace(t, calibration, order, a, b);
    }
  }

  lemma SamePlace(t: HallTables, calibration: seq<real>, order: seq<Edge>, i: nat, j: nat)
    requires TablesOf(t, calibration, order) && i < SECTORS && j < SECTORS && order[i].pattern == order[j].pattern
    ensures i == j
  {
  }

  /** The spans are all positive exactly when no two angles coincide. */
  lemma SpansPositiveIffDistinct(t: HallTables, calibration: seq<real>)
    requires Tabulates(t, calibration)
    requires forall i :: 0 <= i < SECTORS ==> 0.0 <= calibration[i] < TAU
    ensures Distinct(calibration) <==> forall k :: 0 <= k < SECTORS ==> t.span[k] > 0.0
  {
    var order :| TablesOf(t, calibration, order);
    Shape(t, calibration, order);
    hide TablesOf, Tabulates, Ordering, Distinct;
    if Distinct(calibration) {
      forall k | 0 <= k < SECTORS
        ensures t.span[k] > 0.0
      {
        SpanFacts(t, calibration, k);
      }
    } else {
      var k := Coinciding(t, calibration, order);
    }
  }

  /** Where two angles coincide, a span vanishes. */
  lemma Coinciding(t: HallTables, calibration: seq<real>, order: seq<Edge>) returns (k: nat)
    requires TablesOf(t, calibration, order) && |calibration| == |t.span| == SECTORS && !Distinct(calibration)
    requires forall i :: 0 <= i < SECTORS ==> 0.0 <= calibration[i] < TAU
    ensures k < SECTORS && t.span[k] == 0.0
  {
    var a, b :| 0 <= a < b < SECTORS && calibration[a] == calibration[b];
    hide TablesOf, Distinct;
    k := SomeSpanVanishes(t, calibration, order, a + 1, b + 1);
  }

  lemma InOrder(calibration: seq<real>, order: seq<Edge>, i: nat, j: nat)
    requires Ordering(order, calibration) && i <= j < SECTORS
    ensures Pattern(order[i].pattern) && order[i].angle <= order[j].angle
  {
  }

  lemma NoWay(a: real, b: real, c: real)
    requires a <= b <= c && a == c
    ensures Forward(a, b) == 0.0
  {
  }

  lemma SpanVanishes(t: HallTables, calibration: seq<real>, order: seq<Edge>, i: nat, j: nat) returns (k: nat)
    requires TablesOf(t, calibration, order) && i < j < SECTORS && order[i].angle == order[j].angle
    ensures k < SECTORS && t.span[k] == 0.0
  {
    Shape(t, calibration, order);
    InOrder(calibration, order, i, i + 1);
    InOrder(calibration, order, i + 1, j);
    NoWay(order[i].angle, order[i + 1].angle, order[j].angle);
    assert Leads(t, order, i);
    hide TablesOf, Ordering, Forward, SpanReciprocal;
    k := order[i].pattern - 1;
  }

  lemma SomeSpanVanishes(t: HallTables, calibration: seq<real>, order: seq<Edge>, p: nat, q: nat) returns (k: nat)
    requires TablesOf(t, calibration, order) && |calibration| == |t.span| == SECTORS && Pattern(p) && Pattern(q) && p != q
    requires calibration[p - 1] == calibration[q - 1]
    ensures k < SECTORS && t.span[k] == 0.0
  {
    hide TablesOf, Ordering, Forward, SpanReciprocal, Leads;
    var i := Entry(t, calibration, order, p);
    var j := Entry(t, calibration, order, q);
    if i < j {
      k := SpanVanishes(t, calibration, order, i, j);
    } else {
      k := SpanVanishes(t, calibration, order, j, i);
    }
  }

  // ---- Direction ----

  predicate Byte(p: int) {
    0 <= p < 0x100
  }

  /** 1 for forward, -1 for reverse, 0 for no transition, none when the patterns are not neighbours. */
  function Direction(forwardNext: seq<nat>, prevPattern: nat, pattern: nat): Option<int>
    requires |forwardNext| == SECTORS
  {
    if !Pattern(prevPattern) || !Pattern(pattern) then None
    else if prevPattern == pattern then Some(0)
    else if forwardNext[prevPattern - 1] == pattern then Some(1)
    else if forwardNext[pattern - 1] == prevPattern then Some(-1)
    else None
  }

  /** Going back over a transition turns the direction round. */
  lemma DirectionAntisymmetric(t: HallTables, calibration: seq<real>, p: nat, q: nat)
    requires Tabulates(t, calibration) && Distinct(calibration)
    ensures Direction(t.forwardNext, p, q).None? <==> Direction(t.forwardNext, q, p).None?
    ensures Direction(t.forwardNext, p, q).Some? ==>
      Direction(t.forwardNext, q, p) == Some(-Direction(t.forwardNext, p, q).value)
  {
    if Pattern(p) && Pattern(q) && t.forwardNext[p - 1] == q && t.forwardNext[q - 1] == p {
      assert Orbit(t, p, 0) == p && Orbit(t, p, 1) == q && Orbit(t, p, 2) == p;
      CycleMeetsOnce(t, calibration, p, 0, 2);
    }
  }

  // ---- The estimate ----

  datatype Interpolation = Stationary | DirectionChange | Normal

  function Step(state: Interpolation, prevPattern: nat, pattern: nat, prevDir: int, dir: int): Interpolation {
    match state
    case Stationary => if prevPattern != pattern then DirectionChange else state
    case DirectionChange => if prevPattern != pattern && prevDir == dir then Normal else state
    case Normal => if prevDir != dir then DirectionChange else state
  }

  datatype HallEstimatorInput = HallEstimatorInput(
    prevHallPattern: nat,
    hallPattern: nat,
    tickCounter: nat,
    previousPeriodReciprocal: real,
    tickFrequencyHz: real)

  datatype HallEstimatorOutput = HallEstimatorOutput(theta: real, omega: real)

  /** What the estimator remembers from one sample to the next. */
  datatype Tracking = Tracking(state: Interpolation, prevPattern: nat, prevDir: int)

  const AT_START := Tracking(Stationary, 0, 0)

  /** The memory after a sample. The first sample is its own baseline; patterns that are no neighbours restart from
      standstill. */
  function Tracked(forwardNext: seq<nat>, tracking: Tracking, input: HallEstimatorInput): Tracking
    requires |forwardNext| == SECTORS
  {
    var pattern := input.hallPattern;
    var baseline := if tracking.prevPattern == 0 then pattern else tracking.prevPattern;
    match Direction(forwardNext, input.prevHallPattern, pattern)
    case Some(dir) => Tracking(Step(tracking.state, baseline, pattern, tracking.prevDir, dir), pattern, dir)
    case None => Tracking(Step(Stationary, pattern, pattern, tracking.prevDir, 0), pattern, 0)
  }

  /** The table index of a pattern, in bounds for every byte. */
  function Index(p: nat): nat {
    if Pattern(p) then p - 1 else SECTORS - 1
  }

  /** The way since the last edge, at the speed of the last period, in angle. */
  function Progress(prevSpan: real, input: HallEstimatorInput): real {
    Mul(prevSpan, Mul(input.tickCounter as real, input.previousPeriodReciprocal))
  }

  function Theta(t: HallTables, state: Interpolation, dir: int, input: HallEstimatorInput): real
    requires |t.theta| == |t.span| == SECTORS
  {
    var index, prevIndex := Index(input.hallPattern), Index(input.prevHallPattern);
    var entry := t.theta[if dir >= 0 then index else prevIndex];
    var span, progress := t.span[index], Progress(t.span[prevIndex], input);
    match state
    case Stationary => t.theta[index] + 0.5 * span
    case DirectionChange => entry + dir as real * Clamp(progress, 0.0, 0.5 * span)
    case Normal => entry + dir as real * Clamp(progress, 0.0, span)
  }

  /** The share of the current sector that the way since the last edge makes up. */
  function EffectiveFraction(prevSpan: real, spanReciprocal: real, input: HallEstimatorInput): real {
    Mul(Mul(prevSpan, spanReciprocal), Mul(input.tickCounter as real, input.previousPeriodReciprocal))
  }

  function Omega(t: HallTables, state: Interpolation, dir: int, input: HallEstimatorInput): real
    requires |t.span| == |t.spanReciprocal| == SECTORS
  {
    if state.Normal? then
      var index, prevIndex := Index(input.hallPattern), Index(input.prevHallPattern);
      var signedPrevSpan := Mul(dir as real, t.span[prevIndex]);
      var omega := Mul(Mul(signedPrevSpan, input.previousPeriodReciprocal), input.tickFrequencyHz);
      var fraction := EffectiveFraction(t.span[prevIndex], t.spanReciprocal[index], input);
      if fraction > 1.0 then Quotient(omega, fraction) else omega
    else 0.0
  }

  /** The tables with one more pattern entered. */
  function Enter(t: HallTables, here: Edge, next: Edge): HallTables
    requires Pattern(here.pattern) && |t.span| == |t.spanReciprocal| == |t.forwardNext| == SECTORS
  {
    var index, span := here.pattern - 1, Forward(here.angle, next.angle);
    t.(forwardNext := t.forwardNext[index := next.pattern],
       span := t.span[index := span],
       spanReciprocal := t.spanReciprocal[index := SpanReciprocal(span)])
  }

  lemma EnterLeads(t: HallTables, calibration: seq<real>, order: seq<Edge>, i: nat)
    requires Ordering(order, calibration) && i < SECTORS
    requires |t.span| == |t.spanReciprocal| == |t.forwardNext| == SECTORS
    requires forall k :: 0 <= k < i ==> Leads(t, order, k)
    ensures forall k :: 0 <= k <= i ==> Leads(Enter(t, order[i], order[After(i)]), order, k)
  {
    var u := Enter(t, order[i], order[After(i)]);
    forall k | 0 <= k < i
      ensures Leads(u, order, k)
    {
      assert Leads(t, order, k) && order[k].pattern != order[i].pattern;
    }
  }

  class HallEstimator {
    var tables: Option<HallTables>
    var tracking: Tracking

    ghost predicate Valid()
      reads this
    {
      tables.Some? ==>
        var t := tables.value;
        |t.theta| == |t.span| == |t.spanReciprocal| == |t.forwardNext| == SECTORS && Tabulates(t, t.theta)
    }

    constructor ()
      ensures Valid() && tables == None && tracking == AT_START
    {
      tables, tracking := None, AT_START;
    }

    method SetCalibration(calibration: seq<real>)
      requires |calibration| == SECTORS
      modifies this`tables
      ensures Valid() && tables.Some? && tables.value.theta == calibration
    {
      var byAngle := new Edge[SECTORS](i requires 0 <= i < |calibration| => Edge(calibration[i], i + 1));
      assert byAngle[..] == Edges(calibration);
      SortByAngle(byAngle);
      SortingOrders(byAngle[..], calibration);
      var t := Walk(byAngle, calibration);
      tables := Some(t);
    }

    static method EnterPattern(t: HallTables, here: Edge, next: Edge) returns (u: HallTables)
      requires Pattern(here.pattern) && |t.span| == |t.spanReciprocal| == |t.forwardNext| == SECTORS
      ensures u == Enter(t, here, next)
    {
      var index, span := here.pattern - 1, next.angle - here.angle;
      if span < 0.0 {
        span := span + TAU;
      }
      u := t.(forwardNext := t.forwardNext[index := next.pattern],
              span := t.span[index := span],
              spanReciprocal := t.spanReciprocal[index := SpanReciprocal(span)]);
    }

    /** Fill the tables from the patterns in order. */
    static method Walk(byAngle: array<Edge>, calibration: seq<real>) returns (t: HallTables)
      requires byAngle.Length == SECTORS && Ordering(byAngle[..], calibration)
      ensures TablesOf(t, calibration, byAngle[..])
    {
      hide Leads, Sorted;
      t := HallTables(calibration, [0.0, 0.0, 0.0, 0.0, 0.0, 0.0], [0.0, 0.0, 0.0, 0.0, 0.0, 0.0], [0, 0, 0, 0, 0, 0]);
      ghost var order := byAngle[..];
      for i := 0 to SECTORS
        invariant t.theta == calibration
        invariant |t.span| == |t.spanReciprocal| == |t.forwardNext| == SECTORS
        invariant forall k :: 0 <= k < i ==> Leads(t, order, k)
      {
        EnterLeads(t, calibration, order, i);
        assert (i + 1) % SECTORS == After(i) && byAngle[i] == order[i] && byAngle[After(i)] == order[After(i)];
        t := EnterPattern(t, byAngle[i], byAngle[(i + 1) % SECTORS]);
      }
    }

    static method Interpolate(t: HallTables, state: Interpolation, dir: int, input: HallEstimatorInput)
      returns (theta: real, omega: real)
      requires |t.theta| == |t.span| == |t.spanReciprocal| == SECTORS
      ensures theta == Theta(t, state, dir, input) && omega == Omega(t, state, dir, input)
    {
      hide Mul, Quotient;
      var prevIndex, index := Index(input.prevHallPattern), Index(input.hallPattern);
      var entryIndex := if dir >= 0 then index else prevIndex;
      var prevSpan, span := t.span[prevIndex], t.span[index];
      var fraction := Mul(input.tickCounter as real, input.previousPeriodReciprocal);
      omega := 0.0;
      match state {
        case Stationary =>
          theta := t.theta[index] + 0.5 * span;
        case DirectionChange =>
          theta := t.theta[entryIndex] + dir as real * Clamp(Mul(prevSpan, fraction), 0.0, 0.5 * span);
        case Normal =>
          theta := t.theta[entryIndex] + dir as real * Clamp(Mul(prevSpan, fraction), 0.0, span);
          omega := Mul(Mul(Mul(dir as real, prevSpan), input.previousPeriodReciprocal), input.tickFrequencyHz);
          var effectiveFraction := Mul(Mul(prevSpan, t.spanReciprocal[index]), fraction);
          if effectiveFraction > 1.0 {
            omega := Quotient(omega, effectiveFraction);
          }
      }
    }

    method GetEstimate(input: HallEstimatorInput) returns (r: Result<HallEstimatorOutput, RotorFeedbackFault>)
      requires Valid() && Byte(input.prevHallPattern) && Byte(input.hallPattern)
      modifies this`tracking
      ensures tables.None? ==> r == Err(NotCalibrated)
      ensures tables.Some? && (input.hallPattern == 0 || input.hallPattern == 7) ==> r == Err(ErroneousValue)
      ensures r.Err? ==> tracking == old(tracking)
      ensures r.Ok? <==> tables.Some? && input.hallPattern != 0 && input.hallPattern != 7
      ensures r.Ok? ==>
        var t := tables.value;
        && tracking == Tracked(t.forwardNext, old(tracking), input)
        && r.value.theta == WrapTo2Pi(Theta(t, tracking.state, tracking.prevDir, input))
        && r.value.omega == Omega(t, tracking.state, tracking.prevDir, input)
      ensures r.Ok? ==> 0.0 <= r.value.theta < TAU
    {
      hide Mul, WrapTo2Pi, Tabulates, Step, Theta, Omega, Direction;
      if tables.None? {
        return Err(NotCalibrated);
      }
      var t := tables.value;
      if input.hallPattern == 0 || input.hallPattern == 7 {
        return Err(ErroneousValue);
      }
      var prevPattern, state := tracking.prevPattern, tracking.state;
      if prevPattern == 0 {
        prevPattern := input.hallPattern;
      }
      var direction, dir := Direction(t.forwardNext, input.prevHallPattern, input.hallPattern), 0;
      if direction.Some? {
        dir := direction.value;
      } else {
        state, prevPattern := Stationary, input.hallPattern;
      }
      state := Step(state, prevPattern, input.hallPattern, tracking.prevDir, dir);
      var theta, omega := Interpolate(t, state, dir, input);
      tracking := Tracking(state, input.hallPattern, dir);
      WrapNear(theta);
      r := Ok(HallEstimatorOutput(WrapTo2Pi(theta), omega));
    }

    method Invalidate()
      modifies this`tables
      ensures Valid() && tables == None
    {
      tables := None;
    }
  }

  // ---- The estimate stays in the sector ----

  /** The direction the estimate uses is one of three, and a reverse transition leads back to the start of the
      sector that was left. */
  lemma DirectionMeans(t: HallTables, tracking: Tracking, input: HallEstimatorInput)
    requires |t.forwardNext| == SECTORS
    ensures var dir := Tracked(t.forwardNext, tracking, input).prevDir;
            && (dir == 0 || dir == 1 || dir == -1)
            && (dir == -1 ==> Pattern(input.prevHallPattern) && Pattern(input.hallPattern)
                              && t.forwardNext[input.hallPattern - 1] == input.prevHallPattern
                              && input.prevHallPattern != input.hallPattern)
  {
  }

  /** Two angles a span apart: the clamped way from either end stays between them. */
  lemma WrappedOnArc(start: real, end: real, span: real, x: real)
    requires 0.0 <= start < TAU && 0.0 <= end < TAU && 0.0 < span < TAU && span == Forward(start, end)
    requires start <= x <= start + span || end - span <= x <= end
    ensures OnArc(WrapTo2Pi(x), start, span)
  {
    WrapNear(x);
    hide WrapTo2Pi;
  }

  /** The angle before wrapping: the middle of the sector at standstill, else the entry edge and the way from it, of
      which no more than half a sector counts until the direction is proven. */
  lemma ThetaMeans(t: HallTables, state: Interpolation, dir: int, input: HallEstimatorInput)
    requires |t.theta| == |t.span| == SECTORS && Pattern(input.hallPattern) && t.span[input.hallPattern - 1] >= 0.0
    requires dir == 0 || dir == 1 || dir == -1
    ensures var entry := t.theta[Index(if dir >= 0 then input.hallPattern else input.prevHallPattern)];
            var span, way := t.span[input.hallPattern - 1], Theta(t, state, dir, input) - entry;
            && (state.Normal? ==> way == Advance(t, dir, input))
            && (state.DirectionChange? ==> way == Clamp(Advance(t, dir, input), -0.5 * span, 0.5 * span))
            && (state.Stationary? ==> Theta(t, state, dir, input) - t.theta[input.hallPattern - 1] == 0.5 * span)
  {
    hide Progress;
  }

  /** The angle before wrapping is within the span of the entry edge, on its inner side. */
  lemma ThetaFromEdge(t: HallTables, state: Interpolation, dir: int, input: HallEstimatorInput, start: real, end: real)
    requires |t.theta| == |t.span| == SECTORS && Pattern(input.hallPattern)
    requires t.theta[input.hallPattern - 1] == start && t.span[input.hallPattern - 1] > 0.0
    requires dir == 0 || dir == 1 || (dir == -1 && t.theta[Index(input.prevHallPattern)] == end)
    ensures var x, span := Theta(t, state, dir, input), t.span[input.hallPattern - 1];
            start <= x <= start + span || end - span <= x <= end
  {
    hide Progress;
  }

  /** For every pattern, in each of the three states and in both directions, the estimated angle lies on the closed
      arc of the current sector: no further past its first edge than the sector is long. */
  lemma EstimateInSector(t: HallTables, calibration: seq<real>, tracking: Tracking, input: HallEstimatorInput)
    requires Tabulates(t, calibration) && Distinct(calibration) && Pattern(input.hallPattern)
    ensures var next, k := Tracked(t.forwardNext, tracking, input), input.hallPattern - 1;
            var theta := WrapTo2Pi(Theta(t, next.state, next.prevDir, input));
            OnArc(theta, calibration[k], t.span[k]) && Forward(calibration[k], theta) <= t.span[k]
  {
    var next, k := Tracked(t.forwardNext, tracking, input), input.hallPattern - 1;
    DirectionMeans(t, tracking, input);
    var end := SectorOf(t, calibration, k);
    hide Tracked, Progress, WrapTo2Pi, OnArc, Ordering, Leads, Tabulates, TablesOf, Distinct, Direction, Theta, Forward;
    ThetaFromEdge(t, next.state, next.prevDir, input, calibration[k], end);
    WrappedOnArc(calibration[k], end, t.span[k], Theta(t, next.state, next.prevDir, input));
    WrapNear(Theta(t, next.state, next.prevDir, input));
    OnArcIsForward(WrapTo2Pi(Theta(t, next.state, next.prevDir, input)), calibration[k], t.span[k]);
  }

  /** The facts of one sector: where it starts, how long it is, and where it ends. */
  ghost predicate Sector(t: HallTables, start: real, k: nat, end: real) {
    && |t.theta| == |t.span| == |t.forwardNext| == SECTORS && k < SECTORS && Pattern(t.forwardNext[k])
    && t.theta[k] == start && t.theta[t.forwardNext[k] - 1] == end
    && 0.0 <= start < TAU && 0.0 <= end < TAU && 0.0 < t.span[k] < TAU && t.span[k] == Forward(start, end)
  }

  lemma SectorIn(t: HallTables, calibration: seq<real>, order: seq<Edge>, k: nat) returns (end: real)
    requires TablesOf(t, calibration, order) && Distinct(calibration) && k < SECTORS
    ensures Sector(t, calibration[k], k, end)
  {
    Shape(t, calibration, order);
    var next := NextIsNearest(t, calibration, order, k + 1, if k == 0 then 2 else 1);
    WithinTurn(calibration, k);
    WithinTurn(calibration, next - 1);
    hide Ordering, Leads, Forward, TablesOf, Distinct;
    end := calibration[next - 1];
  }

  lemma WithinTurn(calibration: seq<real>, k: nat)
    requires Distinct(calibration) && k < SECTORS
    ensures 0.0 <= calibration[k] < TAU
  {
  }

  lemma SectorOf(t: HallTables, calibration: seq<real>, k: nat) returns (end: real)
    requires Tabulates(t, calibration) && Distinct(calibration) && k < SECTORS
    ensures Sector(t, calibration[k], k, end)
  {
    var order :| TablesOf(t, calibration, order);
    assert |calibration| == SECTORS;
    hide *;
    end := SectorIn(t, calibration, order, k);
  }

  // ---- The estimate is not too fast ----

  lemma WayIsShare(prevSpan: real, span: real, reciprocal: real, ticks: real, frequency: real)
    requires span > 0.0 && frequency != 0.0
    ensures Mul(Mul(Mul(prevSpan, reciprocal), frequency), Quotient(ticks, frequency))
         == Mul(span, Mul(Mul(prevSpan, SpanReciprocal(span)), Mul(ticks, reciprocal)))
  {
    var T, inv := Quotient(ticks, frequency), SpanReciprocal(span);
    DivMul(ticks, frequency);
    DivMul(1.0, span);
    Regrouped(prevSpan, reciprocal, frequency, T);
    RegroupedBack(span, inv, prevSpan, Mul(ticks, reciprocal));
    MulOne(Mul(prevSpan, Mul(ticks, reciprocal)));
    MulComm(ticks, reciprocal);
    hide Mul;
  }

  lemma Regrouped(a: real, b: real, c: real, d: real)
    ensures Mul(Mul(Mul(a, b), c), d) == Mul(a, Mul(b, Mul(c, d)))
  {
  }

  lemma RegroupedBack(a: real, b: real, c: real, d: real)
    ensures Mul(a, Mul(Mul(c, b), d)) == Mul(Mul(a, b), Mul(c, d))
  {
  }

  lemma QuotientMul(x: real, e: real, y: real)
    requires e != 0.0
    ensures Mul(Quotient(x, e), y) == Quotient(Mul(x, y), e)
  {
    assert x / e * y == x * y / e;
  }

  lemma SignedWay(dir: int, s: real, r: real, f: real, y: real)
    requires dir == 0 || dir == 1 || dir == -1
    ensures Mul(Mul(Mul(Mul(dir as real, s), r), f), y) == dir as real * Mul(Mul(Mul(s, r), f), y)
  {
  }

  /** The way of the interpolated angle from its entry edge. */
  function Advance(t: HallTables, dir: int, input: HallEstimatorInput): real
    requires |t.span| == SECTORS
  {
    dir as real * Clamp(Progress(t.span[Index(input.prevHallPattern)], input), 0.0, t.span[Index(input.hallPattern)])
  }

  /** At the estimated speed the rotor has not left the current sector in the time since the last edge. In the normal
      state that way is exactly the interpolated angle's: the speed, tapered or not, is the one that leads from the
      edge to the estimate. */
  lemma SpeedStaysInSector(t: HallTables, calibration: seq<real>, tracking: Tracking, input: HallEstimatorInput)
    requires Tabulates(t, calibration) && Distinct(calibration) && Pattern(input.hallPattern)
    requires input.previousPeriodReciprocal >= 0.0 && input.tickFrequencyHz > 0.0
    ensures var next, k := Tracked(t.forwardNext, tracking, input), input.hallPattern - 1;
            var way := Mul(Omega(t, next.state, next.prevDir, input),
                           Quotient(input.tickCounter as real, input.tickFrequencyHz));
            && -t.span[k] <= way <= t.span[k]
            && (next.state.Normal? ==> way == Advance(t, next.prevDir, input))
  {
    var next, k := Tracked(t.forwardNext, tracking, input), input.hallPattern - 1;
    DirectionMeans(t, tracking, input);
    SpanFacts(t, calibration, k);
    SpanFacts(t, calibration, Index(input.prevHallPattern));
    hide *;
    WayInSector(t, next.state, next.prevDir, input);
  }

  lemma SpanFacts(t: HallTables, calibration: seq<real>, k: nat)
    requires Tabulates(t, calibration) && Distinct(calibration) && k < SECTORS
    ensures t.span[k] > 0.0 && t.spanReciprocal[k] == SpanReciprocal(t.span[k])
  {
    var order :| TablesOf(t, calibration, order);
    Shape(t, calibration, order);
    hide TablesOf, Ordering, Distinct, Tabulates, Forward, SpanReciprocal;
    var i := Entry(t, calibration, order, k + 1);
    var next := NextIsNearest(t, calibration, order, k + 1, if k == 0 then 2 else 1);
  }

  /** The share of the sector, times the sector, is the way. */
  lemma ShareIsProgress(prevSpan: real, span: real, input: HallEstimatorInput)
    requires span > 0.0
    ensures Mul(span, EffectiveFraction(prevSpan, SpanReciprocal(span), input)) == Progress(prevSpan, input)
  {
    var f := Mul(input.tickCounter as real, input.previousPeriodReciprocal);
    RegroupedBack(span, SpanReciprocal(span), prevSpan, f);
    DivMul(1.0, span);
    MulOne(Mul(prevSpan, f));
    hide Mul;
  }

  lemma WayInSector(t: HallTables, state: Interpolation, dir: int, input: HallEstimatorInput)
    requires |t.span| == |t.spanReciprocal| == SECTORS && Pattern(input.hallPattern)
    requires dir == 0 || dir == 1 || dir == -1
    requires input.previousPeriodReciprocal >= 0.0 && input.tickFrequencyHz > 0.0
    requires var k, j := input.hallPattern - 1, Index(input.prevHallPattern);
             t.span[k] > 0.0 && t.span[j] > 0.0 && t.spanReciprocal[k] == SpanReciprocal(t.span[k])
    ensures var way := Mul(Omega(t, state, dir, input), Quotient(input.tickCounter as real, input.tickFrequencyHz));
            && -t.span[input.hallPattern - 1] <= way <= t.span[input.hallPattern - 1]
            && (state.Normal? ==> way == Advance(t, dir, input))
  {
    var span, prevSpan := t.span[input.hallPattern - 1], t.span[Index(input.prevHallPattern)];
    var T := Quotient(input.tickCounter as real, input.tickFrequencyHz);
    var r, f := input.previousPeriodReciprocal, input.tickFrequencyHz;
    var fraction := EffectiveFraction(prevSpan, SpanReciprocal(span), input);
    var omega := Mul(Mul(Mul(dir as real, prevSpan), r), f);
    MulZero(T);
    if state.Normal? {
      WayIsShare(prevSpan, span, r, input.tickCounter as real, f);
      SignedWay(dir, prevSpan, r, f, T);
      assert Mul(omega, T) == dir as real * Mul(span, fraction);
      ShareIsProgress(prevSpan, span, input);
      FractionNonNegative(prevSpan, span, input);
      MulSign(span, fraction);
      MulSign(span, fraction - 1.0);
      MulLinear(span, fraction, 1.0);
      MulOne(span);
      MulZero(span);
      if fraction > 1.0 {
        QuotientMul(omega, fraction, T);
        QuotientOf(span, fraction);
        SignedQuotient(dir, Mul(span, fraction), fraction);
      }
      hide Mul, Quotient, EffectiveFraction, SpanReciprocal, Progress;
    }
  }

  lemma SignedQuotient(dir: int, x: real, e: real)
    requires e != 0.0 && (dir == 0 || dir == 1 || dir == -1)
    ensures Quotient(dir as real * x, e) == dir as real * Quotient(x, e)
  {
  }

  lemma FractionNonNegative(prevSpan: real, span: real, input: HallEstimatorInput)
    requires prevSpan > 0.0 && span > 0.0 && input.previousPeriodReciprocal >= 0.0
    ensures EffectiveFraction(prevSpan, SpanReciprocal(span), input) >= 0.0
  {
    QuotientSign(1.0, span);
    MulNonNegative(prevSpan, SpanReciprocal(span));
    MulNonNegative(input.tickCounter as real, input.previousPeriodReciprocal);
    MulNonNegative(Mul(prevSpan, SpanReciprocal(span)), Mul(input.tickCounter as real, input.previousPeriodReciprocal));
    hide Mul;
  }

  // ---- A rotor that turns steadily is tracked exactly ----

  /** What one sample proves. A pattern that is no neighbour of the last one restarts from standstill. The direction is
      proven when a transition repeats it, stays proven while it lasts, and is in doubt as soon as it changes. */
  lemma SampleProves(forwardNext: seq<nat>, tracking: Tracking, input: HallEstimatorInput)
    requires |forwardNext| == SECTORS
    ensures var next, dir := Tracked(forwardNext, tracking, input), Direction(forwardNext, input.prevHallPattern, input.hallPattern);
            var moved := tracking.prevPattern != 0 && tracking.prevPattern != input.hallPattern;
            && next.prevPattern == input.hallPattern
            && (dir.None? ==> next.state.Stationary? && next.prevDir == 0)
            && (dir.Some? ==> next.prevDir == dir.value)
            && (next.state.Normal? <==> dir.Some? && tracking.prevDir == dir.value
                                        && (tracking.state.Normal? || (tracking.state.DirectionChange? && moved)))
            && (next.state.Stationary? <==> dir.None? || (tracking.state.Stationary? && !moved))
  {
  }

  function TrackRun(forwardNext: seq<nat>, tracking: Tracking, inputs: seq<HallEstimatorInput>): Tracking
    requires |forwardNext| == SECTORS
  {
    if inputs == [] then tracking
    else Tracked(forwardNext, TrackRun(forwardNext, tracking, inputs[..|inputs| - 1]), inputs[|inputs| - 1])
  }

  /** The number of transitions between the samples. */
  function Transitions(inputs: seq<HallEstimatorInput>): nat {
    if |inputs| < 2 then 0
    else
      var n := |inputs| - 1;
      Transitions(inputs[..n]) + if inputs[n].hallPattern != inputs[n - 1].hallPattern then 1 else 0
  }

  /** Two transitions in one direction prove it, from whatever the estimator remembers, and no fewer do from the start. */
  lemma {:induction false} SteadyIsProven(forwardNext: seq<nat>, tracking: Tracking, inputs: seq<HallEstimatorInput>, dir: int)
    requires |forwardNext| == SECTORS && inputs != [] && (dir == 1 || dir == -1)
    requires forall i :: 0 <= i < |inputs| ==>
               Direction(forwardNext, inputs[i].prevHallPattern, inputs[i].hallPattern) == Some(dir)
    ensures var last := TrackRun(forwardNext, tracking, inputs);
            && last.prevDir == dir && last.prevPattern == inputs[|inputs| - 1].hallPattern != 0
            && (Transitions(inputs) >= 1 ==> !last.state.Stationary?)
            && (Transitions(inputs) >= 2 ==> last.state.Normal?)
            && (tracking == AT_START && Transitions(inputs) < 2 ==> !last.state.Normal?)
            && (tracking == AT_START && Transitions(inputs) < 1 ==> last.state.Stationary?)
  {
    var n := |inputs| - 1;
    SampleProves(forwardNext, TrackRun(forwardNext, tracking, inputs[..n]), inputs[n]);
    assert Pattern(inputs[n].hallPattern);
    if n > 0 {
      SteadyIsProven(forwardNext, tracking, inputs[..n], dir);
    }
    hide Tracked, Direction;
  }

  /** Once the direction is proven, a rotor that turns on at the speed it had through the last sector is estimated exactly,
      speed and angle, until it reaches the next edge. */
  lemma ConstantSpeedIsExact(t: HallTables, calibration: seq<real>, tracking: Tracking, input: HallEstimatorInput, speed: real)
    requires Tabulates(t, calibration) && Distinct(calibration) && Pattern(input.hallPattern) && Pattern(input.prevHallPattern)
    requires input.previousPeriodReciprocal >= 0.0 && input.tickFrequencyHz > 0.0
    requires var next := Tracked(t.forwardNext, tracking, input);
             && next.state.Normal? && next.prevDir != 0
             && speed == next.prevDir as real
                         * Mul(Mul(t.span[input.prevHallPattern - 1], input.previousPeriodReciprocal), input.tickFrequencyHz)
             && next.prevDir as real * Mul(speed, Quotient(input.tickCounter as real, input.tickFrequencyHz))
                <= t.span[input.hallPattern - 1]
    ensures var next, elapsed := Tracked(t.forwardNext, tracking, input), Quotient(input.tickCounter as real, input.tickFrequencyHz);
            var entry := calibration[(if next.prevDir == 1 then input.hallPattern else input.prevHallPattern) - 1];
            && Omega(t, next.state, next.prevDir, input) == speed
            && Theta(t, next.state, next.prevDir, input) == entry + Mul(speed, elapsed)
  {
    var next, k := Tracked(t.forwardNext, tracking, input), input.hallPattern - 1;
    assert t.theta == calibration;
    DirectionMeans(t, tracking, input);
    SpanFacts(t, calibration, k);
    SpanFacts(t, calibration, input.prevHallPattern - 1);
    hide Tabulates, Distinct, Tracked;
    NotTapered(t, next.prevDir, input, speed);
    WayInSector(t, next.state, next.prevDir, input);
    ThetaMeans(t, next.state, next.prevDir, input);
    hide Omega, Theta, Advance;
  }

  lemma NotTapered(t: HallTables, dir: int, input: HallEstimatorInput, speed: real)
    requires |t.span| == |t.spanReciprocal| == SECTORS && Pattern(input.hallPattern) && Pattern(input.prevHallPattern)
    requires (dir == 1 || dir == -1) && input.tickFrequencyHz > 0.0
    requires var k := input.hallPattern - 1; t.span[k] > 0.0 && t.spanReciprocal[k] == SpanReciprocal(t.span[k])
    requires speed == dir as real * Mul(Mul(t.span[input.prevHallPattern - 1], input.previousPeriodReciprocal), input.tickFrequencyHz)
    requires dir as real * Mul(speed, Quotient(input.tickCounter as real, input.tickFrequencyHz)) <= t.span[input.hallPattern - 1]
    ensures Omega(t, Normal, dir, input) == speed
  {
    var span, prevSpan := t.span[input.hallPattern - 1], t.span[input.prevHallPattern - 1];
    var r, f, T := input.previousPeriodReciprocal, input.tickFrequencyHz, Quotient(input.tickCounter as real, input.tickFrequencyHz);
    var fraction := EffectiveFraction(prevSpan, SpanReciprocal(span), input);
    var pace := Mul(Mul(prevSpan, r), f);
    WayIsShare(prevSpan, span, r, input.tickCounter as real, f);
    SignTwice(dir, pace, T);
    SignedPace(dir, prevSpan, r, f);
    MulSign(span, fraction - 1.0);
    MulLinear(span, fraction, 1.0);
    MulOne(span);
    hide Mul, Quotient, SpanReciprocal;
  }

  lemma SignTwice(dir: int, x: real, y: real)
    requires dir == 1 || dir == -1
    ensures dir as real * Mul(dir as real * x, y) == Mul(x, y)
  {
  }

  lemma SignedPace(dir: int, s: real, r: real, f: real)
    ensures Mul(Mul(Mul(dir as real, s), r), f) == dir as real * Mul(Mul(s, r), f)
  {
  }
}
