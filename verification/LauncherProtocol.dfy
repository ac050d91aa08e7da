/**
 Several floating launchers on one page (apps/web/hooks/use-collision-detection.ts with
 apps/web/components/floating-launcher.tsx): what each decides when the others are in given
 corners, the one configuration in which none wants to move, and when that is free of overlaps.
 */
module LauncherProtocol {
  import opened Launchers

  datatype Launcher = Launcher(id: Id, preference: Corner, width: real)

  datatype World = World(view: Viewport, statics: seq<Element>, launchers: seq<Launcher>) {
    ghost predicate Valid() {
      && (forall i :: 0 <= i < |launchers| ==> launchers[i].id != [])
      && (forall i, j :: 0 <= i < j < |launchers| ==> launchers[i].id != launchers[j].id)
    }

    /** Launcher j is an obstacle of launcher i. */
    predicate Outranks(j: nat, i: nat)
      requires i < |launchers| && j < |launchers|
    {
      IdLess(launchers[j].id, launchers[i].id)
    }
  }

  // ---------------------------------------------------------------- the page

  function LauncherElement(l: Launcher, view: Viewport, c: Corner): Element {
    Element(l.id, true, LauncherRect(c, l.width, view))
  }

  /** The elements a check sees when the launchers render in the given corners. */
  function PageElements(w: World, corners: seq<Corner>): seq<Element>
    requires |corners| == |w.launchers|
  {
    w.statics + seq(|corners|, j requires 0 <= j < |corners| => LauncherElement(w.launchers[j], w.view, corners[j]))
  }

  function DecideAt(w: World, corners: seq<Corner>, i: nat): Corner
    requires |corners| == |w.launchers| && i < |corners|
  {
    var l := w.launchers[i];
    Decide(l.id, l.preference, MeasuredSize(l.width), w.view, PageElements(w, corners))
  }

  /** A launcher decides the same when the launchers that outrank it are in the same corners. */
  lemma DecideDependsOnHigherRanks(w: World, c: seq<Corner>, d: seq<Corner>, i: nat)
    requires w.Valid() && |c| == |d| == |w.launchers| && i < |c|
    requires forall j: nat :: j < |c| && w.Outranks(j, i) ==> c[j] == d[j]
    ensures DecideAt(w, c, i) == DecideAt(w, d, i)
  {
    var l := w.launchers[i];
    var a, b, size := PageElements(w, c), PageElements(w, d), MeasuredSize(l.width);
    var n := |w.statics|;
    forall k | 0 <= k < |a|
      ensures a[k] == b[k] || (!IsObstacle(l.id, a[k]) && !IsObstacle(l.id, b[k]))
    {
      if k >= n {
        var j := k - n;
        if w.Outranks(j, i) {
          assert c[j] == d[j];
        } else {
          assert a[k].id == b[k].id == w.launchers[j].id;
        }
      }
    }
    forall p: Corner
      ensures Cost(l.id, size, w.view, a, p) == Cost(l.id, size, w.view, b, p)
    {
      CollisionsCongruent(l.id, LauncherRect(p, size, w.view), a, b);
    }
    CandidatesCover(l.preference, l.preference);
    BestCongruent(l.id, size, w.view, a, b, Candidates(l.preference));
  }

  // ------------------------------------------------------------ the fixed point

  function HigherRanks(w: World, i: nat): set<nat>
    requires i < |w.launchers|
  {
    set j: nat | j < |w.launchers| && w.Outranks(j, i)
  }

  function Rank(w: World, i: nat): nat
    requires i < |w.launchers|
  {
    |HigherRanks(w, i)|
  }

  lemma OutranksRank(w: World, j: nat, i: nat)
    requires i < |w.launchers| && j < |w.launchers| && w.Outranks(j, i)
    ensures Rank(w, j) < Rank(w, i)
  {
    var a, b := HigherRanks(w, j), HigherRanks(w, i);
    forall k | k in a
      ensures k in b
    {
      IdLessTransitive(w.launchers[k].id, w.launchers[j].id, w.launchers[i].id);
    }
    IdLessIrreflexive(w.launchers[j].id);
    assert j in b && j !in a;
    SmallerSet(a, b);
  }

  lemma SmallerSet(a: set<nat>, b: set<nat>)
    requires a < b
    ensures |a| < |b|
  {
    var rest := b - a;
    assert b == a + rest && rest != {};
  }

  /** The corner launcher i settles in, by recursion on the ids below its own. */
  function FixedCorner(w: World, i: nat): Corner
    requires i < |w.launchers|
    decreases Rank(w, i)
  {
    DecideAt(w, seq(|w.launchers|, j requires 0 <= j < |w.launchers| =>
      if w.Outranks(j, i) then (OutranksRank(w, j, i); FixedCorner(w, j)) else w.launchers[j].preference), i)
  }

  function FixedCorners(w: World): seq<Corner> {
    seq(|w.launchers|, i requires 0 <= i < |w.launchers| => FixedCorner(w, i))
  }

  /** No check would move any launcher. */
  ghost predicate Stable(w: World, corners: seq<Corner>) {
    |corners| == |w.launchers| && forall i: nat :: i < |corners| ==> DecideAt(w, corners, i) == corners[i]
  }

  /** A launcher whose superiors have settled decides for its own settled corner. */
  lemma DecideFixed(w: World, corners: seq<Corner>, i: nat)
    requires w.Valid() && |corners| == |w.launchers| && i < |corners|
    requires forall j: nat :: j < |corners| && w.Outranks(j, i) ==> corners[j] == FixedCorner(w, j)
    ensures DecideAt(w, corners, i) == FixedCorner(w, i)
  {
    var d := seq(|w.launchers|, j requires 0 <= j < |w.launchers| =>
      if w.Outranks(j, i) then (OutranksRank(w, j, i); FixedCorner(w, j)) else w.launchers[j].preference);
    DecideDependsOnHigherRanks(w, corners, d, i);
  }

  lemma {:induction false} StableCorner(w: World, corners: seq<Corner>, i: nat)
    requires w.Valid() && Stable(w, corners) && i < |corners|
    ensures corners[i] == FixedCorner(w, i)
    decreases Rank(w, i)
  {
    forall j: nat | j < |corners| && w.Outranks(j, i)
      ensures corners[j] == FixedCorner(w, j)
    {
      OutranksRank(w, j, i);
      StableCorner(w, corners, j);
    }
    DecideFixed(w, corners, i);
  }

  /** There is exactly one configuration in which no launcher wants to move. */
  lemma OneFixedPoint(w: World, corners: seq<Corner>)
    requires w.Valid()
    ensures Stable(w, corners) <==> corners == FixedCorners(w)
  {
    if Stable(w, corners) {
      forall i: nat | i < |corners|
        ensures corners[i] == FixedCorner(w, i)
      {
        StableCorner(w, corners, i);
      }
    }
    if corners == FixedCorners(w) {
      forall i: nat | i < |corners|
        ensures DecideAt(w, corners, i) == corners[i]
      {
        DecideFixed(w, corners, i);
      }
    }
  }

  // ------------------------------------------------------------- clear corners

  /**
   Launcher i would have nothing within 16 of it in a corner: no shown element of nonzero size that
   is no launcher or one with a lower id, and none of the other launchers with lower ids.
   */
  ghost predicate Clear(w: World, corners: seq<Corner>, i: nat, c: Corner)
    requires |corners| == |w.launchers| && i < |corners|
  {
    var me := w.launchers[i];
    var place := LauncherRect(c, if me.width > 0.0 then me.width else 48.0, w.view);
    && (forall k :: 0 <= k < |w.statics| ==> Passes(me.id, place, w.statics[k]))
    && (forall j :: 0 <= j < |corners| && LowerId(w.launchers[j].id, me.id) && w.launchers[j].width != 0.0 ==>
          !RectsOverlap(place, LauncherRect(corners[j], w.launchers[j].width, w.view), 16.0))
  }

  ghost predicate Passes(self: Id, place: Rect, el: Element) {
    || !el.shown || el.rect.left == el.rect.right || el.rect.top == el.rect.bottom
    || (el.id != [] && !LowerId(el.id, self))
    || !RectsOverlap(place, el.rect, 16.0)
  }

  ghost predicate LowerId(a: Id, b: Id) {
    exists k: nat :: FirstDifference(a, b, k)
  }

  lemma PassesExactly(self: Id, place: Rect, el: Element)
    requires self != []
    ensures Passes(self, place, el) <==> !Collides(self, place, el)
  {
    hide IdLess, FirstDifference, RectsOverlap;
    CollidesExactly(self, place, el);
    IdLessExactly(el.id, self);
    IdLessIrreflexive(self);
  }

  lemma LauncherPasses(self: Id, place: Rect, l: Launcher, view: Viewport, c: Corner)
    requires self != [] && l.id != []
    ensures Collides(self, place, LauncherElement(l, view, c)) <==>
      LowerId(l.id, self) && l.width != 0.0 && RectsOverlap(place, LauncherRect(c, l.width, view), 16.0)
  {
    hide IdLess, FirstDifference, RectsOverlap;
    PassesExactly(self, place, LauncherElement(l, view, c));
  }

  lemma ElementsOnPage(w: World, corners: seq<Corner>)
    requires |corners| == |w.launchers|
    ensures var els := PageElements(w, corners);
      && |els| == |w.statics| + |corners|
      && (forall k :: 0 <= k < |w.statics| ==> els[k] == w.statics[k])
      && (forall j :: 0 <= j < |corners| ==> els[|w.statics| + j] == LauncherElement(w.launchers[j], w.view, corners[j]))
  {
  }

  /** A corner costs nothing exactly when it is clear. */
  lemma ClearCostsNothing(w: World, corners: seq<Corner>, i: nat, c: Corner)
    requires w.Valid() && |corners| == |w.launchers| && i < |corners|
    ensures Cost(w.launchers[i].id, MeasuredSize(w.launchers[i].width), w.view, PageElements(w, corners), c) == 0
      <==> Clear(w, corners, i, c)
  {
    hide Passes, LowerId, RectsOverlap, Collides, PageElements, LauncherElement, LauncherRect;
    var me, els := w.launchers[i], PageElements(w, corners);
    var place := LauncherRect(c, MeasuredSize(me.width), w.view);
    NoCollisions(me.id, place, els);
    ElementsOnPage(w, corners);
    var n := |w.statics|;
    forall k | 0 <= k < n
      ensures Passes(me.id, place, w.statics[k]) <==> !Collides(me.id, place, els[k])
    {
      PassesExactly(me.id, place, w.statics[k]);
    }
    forall j | 0 <= j < |corners|
      ensures Collides(me.id, place, els[n + j]) <==>
        LowerId(w.launchers[j].id, me.id) && w.launchers[j].width != 0.0
        && RectsOverlap(place, LauncherRect(corners[j], w.launchers[j].width, w.view), 16.0)
    {
      LauncherPasses(me.id, place, w.launchers[j], w.view, corners[j]);
    }
    if Clear(w, corners, i, c) {
      forall k | 0 <= k < |els|
        ensures !Collides(me.id, place, els[k])
      {
        if k < n {
          assert Passes(me.id, place, w.statics[k]);
        } else {
          var j := k - n;
          var l := w.launchers[j];
          assert LowerId(l.id, me.id) && l.width != 0.0 ==> !RectsOverlap(place, LauncherRect(corners[j], l.width, w.view), 16.0);
          assert !Collides(me.id, place, els[n + j]);
        }
      }
    }
  }

  /** With anything on the page, a launcher that has a clear corner decides for the first clear one, its saved corner if that is clear. */
  lemma DecidesForClear(w: World, corners: seq<Corner>, i: nat) returns (k: nat)
    requires w.Valid() && |corners| == |w.launchers| && i < |corners|
    requires exists c :: Clear(w, corners, i, c)
    ensures Clear(w, corners, i, DecideAt(w, corners, i))
    ensures Clear(w, corners, i, w.launchers[i].preference) <==> DecideAt(w, corners, i) == w.launchers[i].preference
    ensures k < |Candidates(w.launchers[i].preference)| && DecideAt(w, corners, i) == Candidates(w.launchers[i].preference)[k]
    ensures forall j :: 0 <= j < k ==> !Clear(w, corners, i, Candidates(w.launchers[i].preference)[j])
  {
    hide Clear, Cost, PageElements, Candidates;
    var l, els := w.launchers[i], PageElements(w, corners);
    var size := MeasuredSize(l.width);
    var c :| Clear(w, corners, i, c);
    forall p: Corner
      ensures Cost(l.id, size, w.view, els, p) == 0 <==> Clear(w, corners, i, p)
    {
      ClearCostsNothing(w, corners, i, p);
    }
    DecideIsBest(l.id, l.preference, size, w.view, els, c);
    CandidatesCover(l.preference, l.preference);
    k := BestIsFirstMinimum(l.id, size, w.view, els, Candidates(l.preference));
    assert DecideAt(w, corners, i) == Candidates(l.preference)[k];
  }

  /** So where all launchers have settled, each that can be clear of the elements on the page and of its superiors is. */
  lemma SettlesClear(w: World, i: nat)
    requires w.Valid() && i < |w.launchers|
    requires exists c :: Clear(w, FixedCorners(w), i, c)
    ensures Clear(w, FixedCorners(w), i, FixedCorner(w, i))
    ensures Clear(w, FixedCorners(w), i, w.launchers[i].preference) <==> FixedCorner(w, i) == w.launchers[i].preference
  {
    hide Clear, DecideAt, FixedCorner;
    DecideFixed(w, FixedCorners(w), i);
    var k := DecidesForClear(w, FixedCorners(w), i);
  }

  // -------------------------------------------------------------- no stacking

  /** Launchers of the default size and nothing else on the page. */
  ghost predicate OnlyLaunchers(w: World) {
    w.Valid() && w.statics == [] && forall i :: 0 <= i < |w.launchers| ==> w.launchers[i].width == LAUNCHER_SIZE
  }

  predicate CornersClash(view: Viewport, c: Corner, d: Corner) {
    RectsOverlap(LauncherRect(c, LAUNCHER_SIZE, view), LauncherRect(d, LAUNCHER_SIZE, view), COLLISION_MARGIN)
  }

  /** Exactly when launchers in two different corners are out of each other's way. */
  lemma CornerGeometry(view: Viewport, c: Corner, d: Corner)
    ensures CornersClash(view, c, d) <==>
      (c.side == d.side || 32.0 <= view.width <= 160.0) && (c.vertical == d.vertical || 104.0 <= view.height <= 232.0)
  {
  }

  predicate Roomy(view: Viewport) {
    view.width > 160.0 && view.height > 232.0
  }

  /** In a roomy viewport a corner costs nothing exactly when no superior is in it. */
  lemma {:induction false} FreeCorner(w: World, corners: seq<Corner>, i: nat, c: Corner)
    requires OnlyLaunchers(w) && Roomy(w.view) && |corners| == |w.launchers| && i < |corners|
    ensures Cost(w.launchers[i].id, LAUNCHER_SIZE, w.view, PageElements(w, corners), c) == 0
      <==> forall j: nat :: j < |corners| && w.Outranks(j, i) ==> corners[j] != c
  {
    var self, els := w.launchers[i].id, PageElements(w, corners);
    var rect := LauncherRect(c, LAUNCHER_SIZE, w.view);
    NoCollisions(self, rect, els);
    IdLessIrreflexive(self);
    forall j: nat | j < |corners|
      ensures Collides(self, rect, els[j]) <==> w.Outranks(j, i) && corners[j] == c
    {
      CornerGeometry(w.view, c, corners[j]);
      assert els[j] == LauncherElement(w.launchers[j], w.view, corners[j]);
    }
  }

  lemma {:induction false} NoCollisions(self: Id, rect: Rect, els: seq<Element>)
    ensures Collisions(self, rect, els) == 0 <==> forall k :: 0 <= k < |els| ==> !Collides(self, rect, els[k])
    decreases |els|
  {
    if els != [] {
      var init := els[..|els| - 1];
      NoCollisions(self, rect, init);
      if forall k :: 0 <= k < |els| ==> !Collides(self, rect, els[k]) {
        assert forall k :: 0 <= k < |init| ==> init[k] == els[k];
      }
      if Collisions(self, rect, els) == 0 {
        forall k | 0 <= k < |els|
          ensures !Collides(self, rect, els[k])
        {
          if k < |init| {
            assert els[k] == init[k];
          }
        }
      }
    }
  }

  const ALL_CORNERS: set<Corner> := {Corner(Left, Top), Corner(Left, Bottom), Corner(Right, Top), Corner(Right, Bottom)}

  function Held(corners: seq<Corner>, who: set<nat>): set<Corner>
    requires forall j :: j in who ==> j < |corners|
  {
    set j | j in who :: corners[j]
  }

  lemma {:induction false} HeldSize(corners: seq<Corner>, who: set<nat>)
    requires forall j :: j in who ==> j < |corners|
    ensures |Held(corners, who)| <= |who|
    decreases |who|
  {
    if who != {} {
      var j :| j in who;
      var rest := who - {j};
      HeldSize(corners, rest);
      assert Held(corners, who) == Held(corners, rest) + {corners[j]};
    }
  }

  lemma SubsetSize(a: set<Corner>, b: set<Corner>)
    requires a <= b
    ensures |a| <= |b|
  {
    assert b == a + (b - a);
  }

  lemma AllCorners(c: Corner)
    ensures c in ALL_CORNERS && |ALL_CORNERS| == 4
  {
    match c
    case Corner(Left, Top) =>
    case Corner(Left, Bottom) =>
    case Corner(Right, Top) =>
    case Corner(Right, Bottom) =>
  }

  /** Fewer than four superiors leave a corner free. */
  lemma SomeCornerFree(corners: seq<Corner>, who: set<nat>) returns (c: Corner)
    requires (forall j :: j in who ==> j < |corners|) && |who| < 4
    ensures forall j :: j in who ==> corners[j] != c
  {
    HeldSize(corners, who);
    var held := Held(corners, who);
    if ALL_CORNERS <= held {
      SubsetSize(ALL_CORNERS, held);
      assert false;
    }
    c :| c in ALL_CORNERS && c !in held;
    assert forall j :: j in who ==> corners[j] in held;
  }

  /** A launcher with fewer than four superiors ends in a corner none of them holds. */
  lemma AvoidsSuperiors(w: World, i: nat)
    requires OnlyLaunchers(w) && Roomy(w.view) && i < |w.launchers| && Rank(w, i) < 4
    ensures forall j: nat :: j < |w.launchers| && w.Outranks(j, i) ==> FixedCorner(w, j) != FixedCorner(w, i)
    ensures FixedCorner(w, i) == w.launchers[i].preference
      <==> forall j: nat :: j < |w.launchers| && w.Outranks(j, i) ==> FixedCorner(w, j) != w.launchers[i].preference
  {
    hide Decide, Cost, FixedCorner, PageElements;
    var corners := FixedCorners(w);
    DecideFixed(w, corners, i);
    var l := w.launchers[i];
    var free := SomeCornerFree(corners, HigherRanks(w, i));
    FreeCorner(w, corners, i, free);
    FreeCorner(w, corners, i, l.preference);
    FreeCorner(w, corners, i, FixedCorner(w, i));
    DecideIsBest(l.id, l.preference, LAUNCHER_SIZE, w.view, PageElements(w, corners), free);
    assert forall j: nat :: j < |w.launchers| && w.Outranks(j, i) ==> j in HigherRanks(w, i);
    assert Cost(l.id, LAUNCHER_SIZE, w.view, PageElements(w, corners), FixedCorner(w, i)) == 0;
    assert forall j: nat :: j < |w.launchers| ==> corners[j] == FixedCorner(w, j);
  }

  lemma RankBound(w: World, i: nat)
    requires i < |w.launchers|
    ensures Rank(w, i) < |w.launchers|
  {
    IdLessIrreflexive(w.launchers[i].id);
    Indices(|w.launchers|);
    assert i in UpTo(|w.launchers|) && i !in HigherRanks(w, i);
    SmallerSet(HigherRanks(w, i), UpTo(|w.launchers|));
  }

  function UpTo(n: nat): set<nat> {
    if n == 0 then {} else UpTo(n - 1) + {n - 1}
  }

  lemma {:induction false} Indices(n: nat)
    ensures |UpTo(n)| == n && forall j: nat :: j in UpTo(n) <==> j < n
  {
    if n > 0 {
      Indices(n - 1);
    }
  }

  ghost predicate StackFree(w: World) {
    forall i, j :: 0 <= i < j < |w.launchers| ==> !CornersClash(w.view, FixedCorner(w, i), FixedCorner(w, j))
  }

  /** With nothing else on a roomy page, launchers end up clear of each other exactly when there are at most four. */
  lemma NoStacking(w: World)
    requires OnlyLaunchers(w) && Roomy(w.view)
    ensures StackFree(w) <==> |w.launchers| <= 4
  {
    if |w.launchers| <= 4 {
      forall i: nat, j: nat | i < j < |w.launchers|
        ensures !CornersClash(w.view, FixedCorner(w, i), FixedCorner(w, j))
      {
        RankBound(w, i);
        RankBound(w, j);
        AvoidsSuperiors(w, i);
        AvoidsSuperiors(w, j);
        IdLessTotal(w.launchers[i].id, w.launchers[j].id);
        CornerGeometry(w.view, FixedCorner(w, i), FixedCorner(w, j));
      }
    } else {
      var corners := FixedCorners(w);
      var i, j := TwoStack(corners);
      CornerGeometry(w.view, corners[i], corners[j]);
    }
  }

  lemma TwoStack(corners: seq<Corner>) returns (i: nat, j: nat)
    requires |corners| > 4
    ensures i < j < |corners| && corners[i] == corners[j]
  {
    if forall a, b :: 0 <= a < b < 5 ==> corners[a] != corners[b] {
      var five := {corners[0], corners[1], corners[2], corners[3], corners[4]};
      assert |five| == 5;
      forall c: Corner
        ensures c in ALL_CORNERS && |ALL_CORNERS| == 4
      {
        AllCorners(c);
      }
      SubsetSize(five, ALL_CORNERS);
      assert false;
    }
    i, j :| 0 <= i < j < 5 && corners[i] == corners[j];
  }

  /** And then each of them is in its saved corner exactly when no launcher with a lower id holds that corner. */
  lemma KeepsPreference(w: World, i: nat)
    requires OnlyLaunchers(w) && Roomy(w.view) && |w.launchers| <= 4 && i < |w.launchers|
    ensures FixedCorner(w, i) == w.launchers[i].preference
      <==> !exists j: nat :: j < |w.launchers| && w.Outranks(j, i) && FixedCorner(w, j) == w.launchers[i].preference
  {
    RankBound(w, i);
    AvoidsSuperiors(w, i);
  }

  /** Launchers that share one id do not see each other: with nothing else around, each takes its saved corner. */
  lemma SharedIdsStack(w: World, corners: seq<Corner>, i: nat)
    requires |corners| == |w.launchers| && i < |w.launchers| && w.statics == [] && w.launchers[i].id != []
    requires forall j :: 0 <= j < |w.launchers| ==> w.launchers[j].id == w.launchers[i].id
    ensures DecideAt(w, corners, i) == w.launchers[i].preference
  {
    var l := w.launchers[i];
    var els, size := PageElements(w, corners), MeasuredSize(l.width);
    assert forall k :: 0 <= k < |els| ==> !IsObstacle(l.id, els[k]);
    NoCollisions(l.id, LauncherRect(l.preference, size, w.view), els);
    DecideIsBest(l.id, l.preference, size, w.view, els, l.preference);
  }
}
