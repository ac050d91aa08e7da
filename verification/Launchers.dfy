/**
 The collision check of apps/web/hooks/use-collision-detection.ts: geometry,
 id priority, the choice of a corner, and the hook that keeps the result.
 */
module Launchers {

  datatype Side = Left | Right
  datatype Vertical = Top | Bottom
  datatype Corner = Corner(side: Side, vertical: Vertical)

  datatype Viewport = Viewport(width: real, height: real)

  datatype Rect = Rect(left: real, top: real, right: real, bottom: real)

  const COLLISION_MARGIN := 16.0
  const LAUNCHER_SIZE := 48.0
  const OFFSET := 24.0
  const TOP_OFFSET := 96.0
  const MIN_CHECK_INTERVAL_MS := 250

  predicate RectsOverlap(a: Rect, b: Rect, margin: real) {
    !(a.right + margin < b.left || a.left - margin > b.right || a.bottom + margin < b.top || a.top - margin > b.bottom)
  }

  function LauncherRect(c: Corner, size: real, view: Viewport): Rect {
    var left := if c.side == Right then view.width - size - OFFSET else OFFSET;
    var top := if c.vertical == Bottom then view.height - size - OFFSET else TOP_OFFSET;
    Rect(left, top, left + size, top + size)
  }

  // ---------------------------------------------------------------- priorities

  /** A launcher id as its UTF-16 code units; the empty id stands for an element that is no launcher. */
  type Id = seq<nat>

  /** `a < b` on strings. */
  predicate IdLess(a: Id, b: Id) {
    b != [] && (a == [] || a[0] < b[0] || (a[0] == b[0] && IdLess(a[1..], b[1..])))
  }

  lemma {:induction false} IdLessTransitive(a: Id, b: Id, c: Id)
    requires IdLess(a, b) && IdLess(b, c)
    ensures IdLess(a, c)
    decreases |a|
  {
    if a != [] && a[0] == b[0] && b[0] == c[0] {
      IdLessTransitive(a[1..], b[1..], c[1..]);
    }
  }

  lemma {:induction false} IdLessIrreflexive(a: Id)
    ensures !IdLess(a, a)
    decreases |a|
  {
    if a != [] {
      IdLessIrreflexive(a[1..]);
    }
  }

  /** Two different ids are always ordered, so of two launchers exactly one yields. */
  lemma {:induction false} IdLessTotal(a: Id, b: Id)
    requires a != b
    ensures IdLess(a, b) || IdLess(b, a)
    decreases |a|
  {
    if a != [] && b != [] && a[0] == b[0] {
      assert a == [a[0]] + a[1..] && b == [b[0]] + b[1..];
      IdLessTotal(a[1..], b[1..]);
    }
  }

  /** The first unit in which they differ decides, or else the length. */
  lemma {:induction false} IdLessExactly(a: Id, b: Id)
    ensures IdLess(a, b) <==> exists k: nat :: FirstDifference(a, b, k)
    decreases |a|
  {
    if IdLess(a, b) {
      if a == [] || a[0] < b[0] {
        assert FirstDifference(a, b, 0);
      } else {
        IdLessExactly(a[1..], b[1..]);
        var k: nat :| FirstDifference(a[1..], b[1..], k);
        assert a[..k + 1] == [a[0]] + a[1..][..k] && b[..k + 1] == [b[0]] + b[1..][..k];
        assert FirstDifference(a, b, k + 1);
      }
    }
    if k: nat :| FirstDifference(a, b, k) {
      if k > 0 {
        assert a[0] == a[..k][0] == b[..k][0] == b[0];
        assert a[1..][..k - 1] == a[..k][1..] == b[..k][1..] == b[1..][..k - 1];
        assert FirstDifference(a[1..], b[1..], k - 1);
        IdLessExactly(a[1..], b[1..]);
      }
    }
  }

  /** The two agree before unit k, and there the first one ends or has the smaller unit. */
  ghost predicate FirstDifference(a: Id, b: Id, k: nat) {
    k <= |a| && k < |b| && a[..k] == b[..k] && (k == |a| || a[k] < b[k])
  }

  // ------------------------------------------------------------------ geometry

  predicate Contains(r: Rect, x: real, y: real) {
    r.left <= x <= r.right && r.top <= y <= r.bottom
  }

  predicate Near(a: real, b: real, distance: real) {
    -distance <= a - b <= distance
  }

  ghost predicate PointsNear(a: Rect, b: Rect, margin: real, x: real, y: real, u: real, v: real) {
    Contains(a, x, y) && Contains(b, u, v) && Near(x, u, margin) && Near(y, v, margin)
  }

  /** Rectangles overlap exactly if they have points that are no further apart than the margin in either direction. */
  lemma OverlapMeansNear(a: Rect, b: Rect, margin: real)
    requires a.left <= a.right && a.top <= a.bottom && b.left <= b.right && b.top <= b.bottom && margin >= 0.0
    ensures RectsOverlap(a, b, margin) <==> exists x, y, u, v :: PointsNear(a, b, margin, x, y, u, v)
  {
    if RectsOverlap(a, b, margin) {
      var x, u := NearPoints(a.left, a.right, b.left, b.right, margin);
      var y, v := NearPoints(a.top, a.bottom, b.top, b.bottom, margin);
      assert PointsNear(a, b, margin, x, y, u, v);
    }
  }

  lemma NearPoints(a: real, b: real, c: real, d: real, margin: real) returns (x: real, u: real)
    requires a <= b && c <= d && margin >= 0.0 && b + margin >= c && a - margin <= d
    ensures a <= x <= b && c <= u <= d && Near(x, u, margin)
  {
    if b < c {
      x, u := b, c;
    } else if d < a {
      x, u := a, d;
    } else {
      x := if a > c then a else c;
      u := x;
    }
  }

  /** A launcher keeps 24 from the sides and the bottom and 96 from the top. */
  lemma CornerPlaces(c: Corner, size: real, view: Viewport)
    ensures var r := LauncherRect(c, size, view);
      && r.right - r.left == size && r.bottom - r.top == size
      && (if c.side == Left then r.left == 24.0 else view.width - r.right == 24.0)
      && (if c.vertical == Top then r.top == 96.0 else view.height - r.bottom == 24.0)
  {
  }

  // ----------------------------------------------------------------- obstacles

  /** A fixed or sticky element; `shown` is the outcome of its display, visibility and opacity tests. */
  datatype Element = Element(id: Id, shown: bool, rect: Rect) {
    predicate Visible() {
      shown && rect.left != rect.right && rect.top != rect.bottom
    }
  }

  /**
   What stands in the way of a launcher in a rectangle: a shown element of nonzero size within 16
   of it that is no launcher or one with a lower id.
   */
  ghost predicate Blocks(self: Id, rect: Rect, el: Element) {
    && el.shown && el.rect.left != el.rect.right && el.rect.top != el.rect.bottom
    && (el.id == [] || (el.id != self && (self == [] || exists k: nat :: FirstDifference(el.id, self, k))))
    && RectsOverlap(rect, el.rect, 16.0)
  }

  /** What `findFloatingElements` keeps: not oneself, no launcher of lower priority, nothing invisible. */
  predicate IsObstacle(self: Id, el: Element) {
    !(el.id != [] && el.id == self) && !(el.id != [] && self != [] && !IdLess(el.id, self)) && el.Visible()
  }

  predicate Collides(self: Id, rect: Rect, el: Element) {
    IsObstacle(self, el) && RectsOverlap(rect, el.rect, COLLISION_MARGIN)
  }

  lemma CollidesExactly(self: Id, rect: Rect, el: Element)
    ensures Collides(self, rect, el) <==> Blocks(self, rect, el)
  {
    hide IdLess, FirstDifference;
    IdLessExactly(el.id, self);
  }

  function Collisions(self: Id, rect: Rect, els: seq<Element>): nat {
    if els == [] then 0 else
      Collisions(self, rect, els[..|els| - 1]) + if Collides(self, rect, els[|els| - 1]) then 1 else 0
  }

  /** The positions of the elements that stand in the way. */
  ghost function Blockers(self: Id, rect: Rect, els: seq<Element>): set<nat> {
    set k: nat | k < |els| && Blocks(self, rect, els[k])
  }

  /** The collisions counted are the elements that stand in the way, each once. */
  lemma {:induction false} CollisionsAreBlockers(self: Id, rect: Rect, els: seq<Element>)
    ensures Collisions(self, rect, els) == |Blockers(self, rect, els)|
    decreases |els|
  {
    hide Collides, Blocks;
    if els == [] {
      assert Blockers(self, rect, els) == {};
    } else {
      var n := |els| - 1;
      CollisionsAreBlockers(self, rect, els[..n]);
      CollidesExactly(self, rect, els[n]);
      var before, all := Blockers(self, rect, els[..n]), Blockers(self, rect, els);
      assert n !in before;
      assert all == if Blocks(self, rect, els[n]) then before + {n} else before;
    }
  }

  /** The kept elements are those that could stand in the way of some rectangle, as often as they were found. */
  lemma ObstaclesExactly(self: Id, els: seq<Element>, el: Element)
    ensures el in Obstacles(self, els) <==> el in els && exists rect :: Blocks(self, rect, el)
    ensures multiset(Obstacles(self, els))[el] == if el in Obstacles(self, els) then multiset(els)[el] else 0
  {
    hide Obstacles, Blocks, IsObstacle;
    IsObstacleExactly(self, el);
    ObstaclesMembers(self, els, el);
  }

  lemma {:induction false} ObstaclesMembers(self: Id, els: seq<Element>, el: Element)
    ensures el in Obstacles(self, els) <==> el in els && IsObstacle(self, el)
    ensures multiset(Obstacles(self, els))[el] == if IsObstacle(self, el) then multiset(els)[el] else 0
    decreases |els|
  {
    hide IsObstacle;
    if els != [] {
      var n := |els| - 1;
      ObstaclesMembers(self, els[..n], el);
      var kept := Obstacles(self, els[..n]);
      assert Obstacles(self, els) == if IsObstacle(self, els[n]) then kept + [els[n]] else kept;
      assert els == els[..n] + [els[n]];
      hide Obstacles;
      CountLast(els[..n], els[n], el);
      CountLast(kept, els[n], el);
    }
  }

  lemma CountLast(s: seq<Element>, last: Element, el: Element)
    ensures multiset(s + [last])[el] == multiset(s)[el] + if el == last then 1 else 0
    ensures el in s + [last] <==> el in s || el == last
  {
  }

  lemma IsObstacleExactly(self: Id, el: Element)
    ensures IsObstacle(self, el) <==> exists rect :: Blocks(self, rect, el)
  {
    hide IdLess, FirstDifference;
    IdLessExactly(el.id, self);
    if IsObstacle(self, el) {
      assert Blocks(self, el.rect, el) || !RectsOverlap(el.rect, el.rect, 16.0);
      var wide := Rect(el.rect.right, el.rect.bottom, el.rect.left, el.rect.top);
      assert Blocks(self, el.rect, el) || Blocks(self, wide, el);
    }
  }

  lemma {:induction false} CollisionsConcat(self: Id, rect: Rect, a: seq<Element>, b: seq<Element>)
    ensures Collisions(self, rect, a + b) == Collisions(self, rect, a) + Collisions(self, rect, b)
    decreases |b|
  {
    if b == [] {
      assert a + b == a;
    } else {
      assert (a + b)[..|a + b| - 1] == a + b[..|b| - 1];
      CollisionsConcat(self, rect, a, b[..|b| - 1]);
    }
  }

  lemma TakeAt(s: seq<Element>, k: nat)
    requires k < |s|
    ensures multiset(s) == multiset(s[..k] + s[k + 1..]) + multiset{s[k]}
  {
    assert s == s[..k] + ([s[k]] + s[k + 1..]);
  }

  lemma TakeLast(s: seq<Element>)
    requires s != []
    ensures multiset(s) == multiset(s[..|s| - 1]) + multiset{s[|s| - 1]}
  {
    assert s == s[..|s| - 1] + [s[|s| - 1]];
  }

  lemma Cancel(m: multiset<Element>, n: multiset<Element>, e: Element)
    requires m + multiset{e} == n + multiset{e}
    ensures m == n
  {
    forall x
      ensures m[x] == n[x]
    {
      assert (m + multiset{e})[x] == (n + multiset{e})[x];
    }
  }

  lemma TakeOut(a: seq<Element>, b: seq<Element>, k: nat)
    requires multiset(a) == multiset(b) && k < |b| && a != [] && a[|a| - 1] == b[k]
    ensures multiset(a[..|a| - 1]) == multiset(b[..k] + b[k + 1..])
  {
    TakeLast(a);
    TakeAt(b, k);
    Cancel(multiset(a[..|a| - 1]), multiset(b[..k] + b[k + 1..]), b[k]);
  }

  lemma CollisionsOne(self: Id, rect: Rect, el: Element)
    ensures Collisions(self, rect, [el]) == if Collides(self, rect, el) then 1 else 0
  {
    assert [el][..0] == [];
  }

  /** The order in which the selectors find the elements does not matter. */
  lemma {:induction false} CollisionsIgnoreOrder(self: Id, rect: Rect, a: seq<Element>, b: seq<Element>)
    requires multiset(a) == multiset(b)
    ensures Collisions(self, rect, a) == Collisions(self, rect, b)
    decreases |a|
  {
    if a == [] {
      assert |multiset(b)| == 0;
    } else {
      var last, init := a[|a| - 1], a[..|a| - 1];
      assert a == init + [last];
      assert last in multiset(b);
      var k :| 0 <= k < |b| && b[k] == last;
      var c, d := b[..k], b[k + 1..];
      assert b == c + ([last] + d);
      TakeOut(a, b, k);
      CollisionsIgnoreOrder(self, rect, init, c + d);
      CollisionsConcat(self, rect, c, d);
      CollisionsConcat(self, rect, c, [last] + d);
      CollisionsConcat(self, rect, [last], d);
      CollisionsOne(self, rect, last);
    }
  }

  // ------------------------------------------------------------------- choosing

  const FALLBACKS: seq<Corner> := [Corner(Right, Top), Corner(Left, Bottom), Corner(Left, Top), Corner(Right, Bottom)]

  /** The saved corner first, then the other three in fallback order. */
  function Candidates(preferred: Corner): seq<Corner> {
    AddAll([preferred], FALLBACKS)
  }

  function AddAll(have: seq<Corner>, more: seq<Corner>): seq<Corner>
    decreases more
  {
    if more == [] then have
    else AddAll(if more[0] in have then have else have + [more[0]], more[1..])
  }

  /** Every corner is a candidate. */
  lemma CandidatesCover(preferred: Corner, c: Corner)
    ensures Candidates(preferred)[0] == preferred && c in Candidates(preferred)
  {
    hide AddAll;
    AddAllKeeps([preferred], FALLBACKS);
    match c
    case Corner(Right, Top) => assert c == FALLBACKS[0];
    case Corner(Left, Bottom) => assert c == FALLBACKS[1];
    case Corner(Left, Top) => assert c == FALLBACKS[2];
    case Corner(Right, Bottom) => assert c == FALLBACKS[3];
  }

  lemma {:induction false} AddAllKeeps(have: seq<Corner>, more: seq<Corner>)
    ensures have <= AddAll(have, more)
    ensures forall c :: c in more ==> c in AddAll(have, more)
    decreases more
  {
    if more != [] {
      var have' := if more[0] in have then have else have + [more[0]];
      AddAllKeeps(have', more[1..]);
      var all := AddAll(have, more);
      assert have' == all[..|have'|];
      assert more[0] in have' && more[0] in all;
      forall c | c in more
        ensures c in all
      {
        if c != more[0] {
          assert c in more[1..];
        }
      }
    }
  }

  /** The order in which the corners are tried, for each saved corner. */
  lemma CandidateOrder(p: Corner)
    ensures p == Corner(Right, Bottom) ==>
      Candidates(p) == [Corner(Right, Bottom), Corner(Right, Top), Corner(Left, Bottom), Corner(Left, Top)]
    ensures p == Corner(Right, Top) ==>
      Candidates(p) == [Corner(Right, Top), Corner(Left, Bottom), Corner(Left, Top), Corner(Right, Bottom)]
    ensures p == Corner(Left, Bottom) ==>
      Candidates(p) == [Corner(Left, Bottom), Corner(Right, Top), Corner(Left, Top), Corner(Right, Bottom)]
    ensures p == Corner(Left, Top) ==>
      Candidates(p) == [Corner(Left, Top), Corner(Right, Top), Corner(Left, Bottom), Corner(Right, Bottom)]
  {
    hide Candidates;
    CandidatesUnfold(p);
    match p
    case Corner(Right, Bottom) =>
    case Corner(Right, Top) =>
    case Corner(Left, Bottom) =>
    case Corner(Left, Top) =>
  }

  function CandidatesInSteps(p: Corner): seq<Corner> {
    Added(Added(Added(Added([p], Corner(Right, Top)), Corner(Left, Bottom)), Corner(Left, Top)), Corner(Right, Bottom))
  }

  function Added(have: seq<Corner>, c: Corner): seq<Corner> {
    if c in have then have else have + [c]
  }

  lemma CandidatesUnfold(p: Corner)
    ensures Candidates(p) == CandidatesInSteps(p)
  {
    var f := FALLBACKS;
    assert f[1..] == [Corner(Left, Bottom), Corner(Left, Top), Corner(Right, Bottom)];
    assert f[1..][1..] == [Corner(Left, Top), Corner(Right, Bottom)];
    assert f[1..][1..][1..] == [Corner(Right, Bottom)] && f[1..][1..][1..][1..] == [];
    var a := Added([p], f[0]);
    var b := Added(a, f[1]);
    var c := Added(b, f[2]);
    var d := Added(c, f[3]);
    assert AddAll([p], f) == AddAll(a, f[1..]);
    assert AddAll(a, f[1..]) == AddAll(b, f[1..][1..]);
    assert AddAll(b, f[1..][1..]) == AddAll(c, f[1..][1..][1..]);
    assert AddAll(c, f[1..][1..][1..]) == AddAll(d, []);
  }

  /** The collisions a launcher would have in a corner. */
  function Cost(self: Id, size: real, view: Viewport, els: seq<Element>, c: Corner): nat {
    Collisions(self, LauncherRect(c, size, view), els)
  }

  /** The first candidate with the fewest collisions. */
  function Best(self: Id, size: real, view: Viewport, els: seq<Element>, cs: seq<Corner>): Corner
    requires cs != []
  {
    if |cs| == 1 then cs[0] else
      var best := Best(self, size, view, els, cs[..|cs| - 1]);
      var last := cs[|cs| - 1];
      if Cost(self, size, view, els, last) < Cost(self, size, view, els, best) then last else best
  }

  lemma {:induction false} BestIsFirstMinimum(self: Id, size: real, view: Viewport, els: seq<Element>, cs: seq<Corner>) returns (k: nat)
    requires cs != []
    ensures k < |cs| && Best(self, size, view, els, cs) == cs[k]
    ensures forall j :: 0 <= j < |cs| ==> Cost(self, size, view, els, cs[k]) <= Cost(self, size, view, els, cs[j])
    ensures forall j :: 0 <= j < k ==> Cost(self, size, view, els, cs[k]) < Cost(self, size, view, els, cs[j])
    decreases |cs|
  {
    hide Cost;
    k := 0;
    if |cs| > 1 {
      k := BestIsFirstMinimum(self, size, view, els, cs[..|cs| - 1]);
      if Best(self, size, view, els, cs) != cs[k] {
        k := |cs| - 1;
      }
    }
  }

  /** Where a launcher belongs, given the elements on the page. */
  function Decide(self: Id, preferred: Corner, size: real, view: Viewport, els: seq<Element>): Corner {
    CandidatesCover(preferred, preferred);
    Best(self, size, view, els, Candidates(preferred))
  }

  /** No corner has fewer collisions than the chosen one, and a launcher only leaves its saved corner for a better one. */
  lemma DecideIsBest(self: Id, preferred: Corner, size: real, view: Viewport, els: seq<Element>, c: Corner)
    ensures var d := Decide(self, preferred, size, view, els);
      Cost(self, size, view, els, d) <= Cost(self, size, view, els, c)
      && (d != preferred ==> Cost(self, size, view, els, d) < Cost(self, size, view, els, preferred))
  {
    CandidatesCover(preferred, c);
    var k := BestIsFirstMinimum(self, size, view, els, Candidates(preferred));
  }

  /** Of the corners in the order in which they are tried, the first with the fewest elements in the way. */
  lemma DecideExactly(self: Id, preferred: Corner, size: real, view: Viewport, els: seq<Element>) returns (k: nat)
    ensures k < |Candidates(preferred)| && Decide(self, preferred, size, view, els) == Candidates(preferred)[k]
    ensures forall j :: 0 <= j < |Candidates(preferred)| ==>
      var most := |Blockers(self, LauncherRect(Candidates(preferred)[j], size, view), els)|;
      var here := |Blockers(self, LauncherRect(Candidates(preferred)[k], size, view), els)|;
      here <= most && (j < k ==> here < most)
  {
    hide Blockers, Collisions, Candidates;
    CandidatesCover(preferred, preferred);
    var cs := Candidates(preferred);
    k := BestIsFirstMinimum(self, size, view, els, cs);
    CollisionsAreBlockers(self, LauncherRect(cs[k], size, view), els);
    forall j | 0 <= j < |cs|
      ensures Cost(self, size, view, els, cs[j]) == |Blockers(self, LauncherRect(cs[j], size, view), els)|
    {
      CollisionsAreBlockers(self, LauncherRect(cs[j], size, view), els);
    }
  }

  /** Swapping elements that do not count, or counting elements for equal ones, does not change the decision. */
  lemma {:induction false} CollisionsCongruent(self: Id, rect: Rect, a: seq<Element>, b: seq<Element>)
    requires |a| == |b|
    requires forall k :: 0 <= k < |a| ==> a[k] == b[k] || (!IsObstacle(self, a[k]) && !IsObstacle(self, b[k]))
    ensures Collisions(self, rect, a) == Collisions(self, rect, b)
    decreases |a|
  {
    if a != [] {
      CollisionsCongruent(self, rect, a[..|a| - 1], b[..|b| - 1]);
    }
  }

  lemma {:induction false} BestCongruent(self: Id, size: real, view: Viewport, a: seq<Element>, b: seq<Element>, cs: seq<Corner>)
    requires cs != []
    requires forall c :: Cost(self, size, view, a, c) == Cost(self, size, view, b, c)
    ensures Best(self, size, view, a, cs) == Best(self, size, view, b, cs)
    decreases |cs|
  {
    if |cs| > 1 {
      BestCongruent(self, size, view, a, b, cs[..|cs| - 1]);
    }
  }

  // ------------------------------------------------------------------- the hook

  datatype HookResult = HookResult(hasCollision: bool, bestPosition: Corner)

  /** `checkCollisions`: a result that says the same as before is kept. */
  function Check(prev: HookResult, self: Id, preferred: Corner, size: real, view: Viewport, els: seq<Element>): HookResult {
    if Cost(self, size, view, els, preferred) == 0 then
      if !prev.hasCollision then prev else HookResult(false, preferred)
    else
      var best := Decide(self, preferred, size, view, els);
      if prev.hasCollision && prev.bestPosition == best then prev else HookResult(true, best)
  }

  /** `finalPosition`: the corner the launcher renders in when it is not being dragged. */
  function FinalPosition(preference: Corner, result: HookResult): Corner {
    if result.hasCollision then result.bestPosition else preference
  }

  /** Whatever the hook held before, after a check the launcher renders where it belongs. */
  lemma CheckDecides(prev: HookResult, self: Id, preferred: Corner, size: real, view: Viewport, els: seq<Element>)
    ensures FinalPosition(preferred, Check(prev, self, preferred, size, view, els)) == Decide(self, preferred, size, view, els)
  {
    DecideIsBest(self, preferred, size, view, els, preferred);
  }

  /** The width the check uses for its own launcher: measured, or the default before it is laid out. */
  function MeasuredSize(offsetWidth: real): real {
    if offsetWidth > 0.0 then offsetWidth else LAUNCHER_SIZE
  }

  datatype Hook = Hook(result: HookResult, lastCheck: int)

  /** One call of the check; calls less than 250 ms after the last one do nothing. */
  function CheckAt(h: Hook, now: int, self: Id, preferred: Corner, offsetWidth: real, view: Viewport, els: seq<Element>): Hook {
    if now - h.lastCheck < MIN_CHECK_INTERVAL_MS then h
    else Hook(Check(h.result, self, preferred, MeasuredSize(offsetWidth), view, els), now)
  }

  /** Less than 250 ms after the last check nothing happens; otherwise the launcher ends where it belongs, measured or 48 wide. */
  lemma CheckAtExactly(h: Hook, now: int, self: Id, preferred: Corner, offsetWidth: real, view: Viewport, els: seq<Element>)
    ensures var t := CheckAt(h, now, self, preferred, offsetWidth, view, els);
      && (now - h.lastCheck < 250 ==> t == h)
      && (now - h.lastCheck >= 250 ==> t.lastCheck == now)
      && (now - h.lastCheck >= 250 ==>
            FinalPosition(preferred, t.result) == Decide(self, preferred, if offsetWidth > 0.0 then offsetWidth else 48.0, view, els))
  {
    CheckDecides(h.result, self, preferred, MeasuredSize(offsetWidth), view, els);
  }

  /** The hook of one mounted launcher. */
  class CollisionHook {
    const selfId: Id
    const preferred: Corner
    var result: HookResult
    var lastCheck: int

    function View(): Hook
      reads this
    {
      Hook(result, lastCheck)
    }

    constructor (selfId: Id, preferred: Corner)
      ensures this.selfId == selfId && this.preferred == preferred
      ensures View() == Hook(HookResult(false, preferred), 0)
    {
      this.selfId, this.preferred := selfId, preferred;
      result, lastCheck := HookResult(false, preferred), 0;
    }

    method CheckCollisions(now: int, offsetWidth: real, view: Viewport, els: seq<Element>)
      modifies this
      ensures View() == CheckAt(old(View()), now, selfId, preferred, offsetWidth, view, els)
    {
      if now - lastCheck < MIN_CHECK_INTERVAL_MS {
        return;
      }
      lastCheck := now;
      var size := MeasuredSize(offsetWidth);
      var floating := FindFloatingElements(selfId, els);
      var collisions := CountOverlaps(LauncherRect(preferred, size, view), floating, selfId, els);
      if collisions == 0 {
        if result.hasCollision {
          result := HookResult(false, preferred);
        }
        return;
      }
      var candidates := ListCandidates(preferred);
      var bestPos := ChooseBest(selfId, size, view, els, floating, candidates);
      if !(result.hasCollision && result.bestPosition == bestPos) {
        result := HookResult(true, bestPos);
      }
    }
  }

  method ListCandidates(preferred: Corner) returns (candidates: seq<Corner>)
    ensures candidates == Candidates(preferred) && candidates != []
  {
    candidates := [preferred];
    for i := 0 to |FALLBACKS|
      invariant candidates != []
      invariant AddAll(candidates, FALLBACKS[i..]) == Candidates(preferred)
    {
      if FALLBACKS[i] !in candidates {
        candidates := candidates + [FALLBACKS[i]];
      }
    }
  }

  method ChooseBest(self: Id, size: real, view: Viewport, ghost els: seq<Element>, floating: seq<Element>, candidates: seq<Corner>)
    returns (bestPos: Corner)
    requires candidates != [] && floating == Obstacles(self, els)
    ensures bestPos == Best(self, size, view, els, candidates)
  {
    bestPos := candidates[0];
    var fewest: int := -1;  // stands for Infinity
    for i := 0 to |candidates|
      invariant i == 0 ==> fewest == -1
      invariant i > 0 ==> bestPos == Best(self, size, view, els, candidates[..i]) && fewest == Cost(self, size, view, els, bestPos)
    {
      var n := CountOverlaps(LauncherRect(candidates[i], size, view), floating, self, els);
      assert candidates[..i + 1][..i] == candidates[..i];
      if fewest == -1 || n < fewest {
        fewest, bestPos := n, candidates[i];
      }
    }
    assert candidates[..|candidates|] == candidates;
  }

  function Obstacles(self: Id, els: seq<Element>): seq<Element> {
    if els == [] then [] else
      Obstacles(self, els[..|els| - 1]) + if IsObstacle(self, els[|els| - 1]) then [els[|els| - 1]] else []
  }

  method FindFloatingElements(self: Id, els: seq<Element>) returns (found: seq<Element>)
    ensures found == Obstacles(self, els)
  {
    found := [];
    for i := 0 to |els|
      invariant found == Obstacles(self, els[..i])
    {
      assert els[..i + 1][..i] == els[..i];
      if IsObstacle(self, els[i]) {
        found := found + [els[i]];
      }
    }
    assert els[..|els|] == els;
  }

  lemma {:induction false} ObstaclesCount(self: Id, rect: Rect, els: seq<Element>)
    ensures Collisions(self, rect, Obstacles(self, els)) == Collisions(self, rect, els)
    ensures forall e :: e in Obstacles(self, els) ==> IsObstacle(self, e)
    decreases |els|
  {
    if els != [] {
      var init, last := els[..|els| - 1], els[|els| - 1];
      ObstaclesCount(self, rect, init);
      if IsObstacle(self, last) {
        CollisionsConcat(self, rect, Obstacles(self, init), [last]);
        CollisionsOne(self, rect, last);
      } else {
        assert Obstacles(self, els) == Obstacles(self, init);
      }
    }
  }

  method CountOverlaps(rect: Rect, floating: seq<Element>, ghost self: Id, ghost els: seq<Element>) returns (n: nat)
    requires floating == Obstacles(self, els)
    ensures n == Collisions(self, rect, els)
  {
    ObstaclesCount(self, rect, els);
    n := 0;
    for i := 0 to |floating|
      invariant n == Collisions(self, rect, floating[..i])
    {
      assert floating[..i + 1][..i] == floating[..i];
      assert floating[i] in floating;
      if RectsOverlap(rect, floating[i].rect, COLLISION_MARGIN) {
        n := n + 1;
      }
    }
    assert floating[..|floating|] == floating;
  }
}
