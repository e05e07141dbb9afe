/** Points and rectangles through nested frames: outward to the viewport of the page, inward to the document
    of an element. Coordinates are real numbers. */
module FrameGeometry {
  import opened Options

  datatype Point = Point(x: real, y: real)

  datatype Rect = Rect(x: real, y: real, width: real, height: real)

  /** A frame element: where its box is, how much it is scaled, and its borders. */
  datatype Frame = Frame(x: real, y: real, scaleX: real, scaleY: real, borderX: real, borderY: real)

  /** Rotated or flipped frames are refused. */
  predicate IsUpright(f: Frame) {
    f.scaleX > 0.0 && f.scaleY > 0.0
  }

  predicate Upright(frames: seq<Frame>) {
    forall i :: 0 <= i < |frames| ==> IsUpright(frames[i])
  }

  // ----- maps; frames are listed from the innermost to the outermost

  function Enter(f: Frame, p: Point): Point
    requires IsUpright(f)
  {
    Point((p.x - f.x) / f.scaleX - f.borderX, (p.y - f.y) / f.scaleY - f.borderY)
  }

  /** One coordinate of a point inside a frame, seen from outside. */
  function Outside(offset: real, border: real, scale: real, t: real): real {
    offset + (t + border) * scale
  }

  function Leave(f: Frame, p: Point): Point {
    Point(Outside(f.x, f.borderX, f.scaleX, p.x), Outside(f.y, f.borderY, f.scaleY, p.y))
  }

  function Outward(frames: seq<Frame>, p: Point): Point {
    if frames == [] then p else Leave(frames[|frames| - 1], Outward(frames[..|frames| - 1], p))
  }

  function Inward(frames: seq<Frame>, p: Point): Point
    requires Upright(frames)
    decreases |frames|
  {
    if frames == [] then p else Inward(frames[..|frames| - 1], Enter(frames[|frames| - 1], p))
  }

  lemma LeaveEnter(f: Frame, p: Point)
    requires IsUpright(f)
    ensures Enter(f, Leave(f, p)) == p && Leave(f, Enter(f, p)) == p
    ensures Leave(f, Point(-f.borderX, -f.borderY)) == Point(f.x, f.y)   // the corner of the box
  {
    Cancels(p.x + f.borderX, f.scaleX);
    Cancels(p.y + f.borderY, f.scaleY);
    Cancels(p.x - f.x, f.scaleX);
    Cancels(p.y - f.y, f.scaleY);
  }

  lemma Cancels(a: real, b: real)
    requires b != 0.0
    ensures a * b / b == a && a / b * b == a
  {
  }

  /** The two maps undo each other, for any chain of frames. */
  lemma {:induction false} InwardOutward(frames: seq<Frame>, p: Point)
    requires Upright(frames)
    ensures Inward(frames, Outward(frames, p)) == p && Outward(frames, Inward(frames, p)) == p
    decreases |frames|
  {
    if frames != [] {
      var n := |frames| - 1;
      LeaveEnter(frames[n], Outward(frames[..n], p));
      LeaveEnter(frames[n], p);
      InwardOutward(frames[..n], p);
      InwardOutward(frames[..n], Enter(frames[n], p));
      hide Enter, Leave;
    }
  }

  /** Going in through the outer frames only, one meets the point that was met going out. */
  lemma {:induction false} InwardMeets(frames: seq<Frame>, k: nat, p: Point)
    requires Upright(frames) && k <= |frames|
    ensures Inward(frames[k..], Outward(frames, p)) == Outward(frames[..k], p)
  {
    OutwardJoins(frames, k, p);
    InwardOutward(frames[k..], Outward(frames[..k], p));
  }

  lemma {:induction false} OutwardJoins(frames: seq<Frame>, k: nat, p: Point)
    requires k <= |frames|
    ensures Outward(frames, p) == Outward(frames[k..], Outward(frames[..k], p))
    decreases |frames|
  {
    if k == |frames| {
      assert frames[..k] == frames && frames[k..] == [];
    } else {
      var n := |frames| - 1;
      OutwardJoins(frames[..n], k, p);
      assert frames[..n][..k] == frames[..k] && frames[..n][k..] == frames[k..][..|frames[k..]| - 1];
      assert frames[k..][|frames[k..]| - 1] == frames[n];
    }
  }

  /** Entering one more frame at the end of the way in. */
  lemma {:induction false} EntersLast(f: Frame, frames: seq<Frame>, p: Point)
    requires IsUpright(f) && Upright(frames)
    ensures Upright([f] + frames) && Inward([f] + frames, p) == Enter(f, Inward(frames, p))
    decreases |frames|
  {
    var all := [f] + frames;
    if frames == [] {
      assert all[..0] == [] && all[0] == f;
    } else {
      var n := |frames| - 1;
      assert all[|all| - 1] == frames[n] && all[..|all| - 1] == [f] + frames[..n];
      EntersLast(f, frames[..n], Enter(frames[n], p));
      assert Inward(frames, p) == Inward(frames[..n], Enter(frames[n], p));
      hide Enter;
    }
  }

  // ----- rectangles

  const CHAIN_LIMIT: nat := 16

  function ScaleX(frames: seq<Frame>): real {
    if frames == [] then 1.0 else ScaleX(frames[..|frames| - 1]) * frames[|frames| - 1].scaleX
  }

  function ScaleY(frames: seq<Frame>): real {
    if frames == [] then 1.0 else ScaleY(frames[..|frames| - 1]) * frames[|frames| - 1].scaleY
  }

  /** The frames a rectangle is carried through: at most sixteen. */
  function Followed(frames: seq<Frame>): seq<Frame> {
    if |frames| <= CHAIN_LIMIT then frames else frames[..CHAIN_LIMIT]
  }

  function Carried(frames: seq<Frame>, r: Rect): Rect {
    var corner := Outward(frames, Point(r.x, r.y));
    Rect(corner.x, corner.y, r.width * ScaleX(frames), r.height * ScaleY(frames))
  }

  lemma {:induction false} ScalesPositive(frames: seq<Frame>)
    requires Upright(frames)
    ensures ScaleX(frames) > 0.0 && ScaleY(frames) > 0.0
  {
    if frames != [] {
      ScalesPositive(frames[..|frames| - 1]);
    }
  }

  /** A rectangle carried through one more frame. */
  function Extended(f: Frame, r: Rect): Rect {
    Rect(Outside(f.x, f.borderX, f.scaleX, r.x), Outside(f.y, f.borderY, f.scaleY, r.y),
         r.width * f.scaleX, r.height * f.scaleY)
  }

  method RectFor(rect: Rect, frames: seq<Frame>) returns (r: Rect)
    ensures r == Carried(Followed(frames), rect)
  {
    var x, y, width, height := rect.x, rect.y, rect.width, rect.height;
    var depth := 0;
    assert frames[..0] == [] && Outward([], Point(rect.x, rect.y)) == Point(rect.x, rect.y);
    while depth < |frames| && depth < CHAIN_LIMIT
      invariant depth <= |frames| && depth <= CHAIN_LIMIT
      invariant Rect(x, y, width, height) == Carried(frames[..depth], rect)
    {
      var f := frames[depth];
      CarriedFurther(frames[..depth], f, rect);
      assert frames[..depth + 1] == frames[..depth] + [f];
      hide Carried, Outside;
      x := Outside(f.x, f.borderX, f.scaleX, x);
      y := Outside(f.y, f.borderY, f.scaleY, y);
      width, height := width * f.scaleX, height * f.scaleY;
      depth := depth + 1;
    }
    assert frames[..depth] == Followed(frames);
    hide Carried;
    r := Rect(x, y, width, height);
  }

  lemma CarriedFurther(frames: seq<Frame>, f: Frame, rect: Rect)
    ensures Carried(frames + [f], rect) == Extended(f, Carried(frames, rect))
  {
    var all, p := frames + [f], Point(rect.x, rect.y);
    assert all[..|all| - 1] == frames && all[|all| - 1] == f;
    assert Outward(all, p) == Leave(f, Outward(frames, p));
    assert ScaleX(all) == ScaleX(frames) * f.scaleX && ScaleY(all) == ScaleY(frames) * f.scaleY;
    Associates(rect.width, ScaleX(frames), f.scaleX);
    Associates(rect.height, ScaleY(frames), f.scaleY);
    hide Outward, ScaleX, ScaleY;
  }

  lemma Associates(a: real, b: real, c: real)
    ensures a * (b * c) == a * b * c
  {
  }

  // ----- hit tests

  /** `hit(k, p)`: at `p` in the document at level `k`, the element (level 0) or the frame element that leads
      to it is on top, shadow roots included. */
  function HitAt(hit: (nat, Point) -> bool, level: nat, frames: seq<Frame>, p: Point): bool
    decreases |frames|
  {
    hit(level, p) && (frames == [] || HitAt(hit, level + 1, frames[1..], Leave(frames[0], p)))
  }

  lemma {:induction false} OutwardFirst(frames: seq<Frame>, p: Point)
    requires frames != []
    ensures Outward(frames, p) == Outward(frames[1..], Leave(frames[0], p))
  {
    OutwardJoins(frames, 1, p);
    assert frames[..1] == [frames[0]];
    assert frames[..1][..0] == [];
    assert Outward(frames[..1][..0], p) == p;
  }

  /** A hit is a hit on every level, at the point carried out to that level. */
  lemma {:induction false} HitAtMeans(hit: (nat, Point) -> bool, level: nat, frames: seq<Frame>, p: Point)
    ensures HitAt(hit, level, frames, p) <==> forall k :: 0 <= k <= |frames| ==> hit(level + k, Outward(frames[..k], p))
    decreases |frames|
  {
    assert frames[..0] == [] && Outward(frames[..0], p) == p;
    if frames != [] {
      var q := Leave(frames[0], p);
      HitAtMeans(hit, level + 1, frames[1..], q);
      forall k | 1 <= k <= |frames| ensures Outward(frames[..k], p) == Outward(frames[1..][..k - 1], q) {
        OutwardFirst(frames[..k], p);
        assert frames[..k][1..] == frames[1..][..k - 1];
      }
      hide Outward, Leave;
      if HitAt(hit, level, frames, p) {
        forall k | 0 <= k <= |frames| ensures hit(level + k, Outward(frames[..k], p)) {
          if k > 0 {
            assert hit(level + 1 + (k - 1), Outward(frames[1..][..k - 1], q));
          }
        }
      } else if hit(level, p) {
        var k: nat :| k <= |frames[1..]| && !hit(level + 1 + k, Outward(frames[1..][..k], q));
        assert !hit(level + (k + 1), Outward(frames[..k + 1], p));
      }
    }
  }

  // ----- the point of an action

  /** Where `verifyPoint` tests again, from a viewport point and the two rectangles. */
  function LocalPoint(p: Point, local: Rect, global: Rect): Point
    requires global.width != 0.0 && global.height != 0.0
  {
    Point((p.x - global.x) * local.width / global.width + local.x, (p.y - global.y) * local.height / global.height + local.y)
  }

  function ViewportPoint(p: Point, local: Rect, global: Rect): Point
    requires local.width != 0.0 && local.height != 0.0
  {
    Point(global.x + (p.x - local.x) * global.width / local.width, global.y + (p.y - local.y) * global.height / local.height)
  }

  lemma Undoes(d: real, a: real, b: real)
    requires a != 0.0 && b != 0.0
    ensures d * a / b * b / a == d
  {
    Cancels(d * a, b);
    Cancels(d, a);
  }

  /** The second test is at exactly the point of the first. */
  lemma LocalPointRecovers(p: Point, local: Rect, global: Rect)
    requires local.width > 0.0 && local.height > 0.0 && global.width > 0.0 && global.height > 0.0
    ensures LocalPoint(ViewportPoint(p, local, global), local, global) == p
  {
    Undoes(p.x - local.x, global.width, local.width);
    Undoes(p.y - local.y, global.height, local.height);
    var q := ViewportPoint(p, local, global);
    assert q.x - global.x == (p.x - local.x) * global.width / local.width;
    assert q.y - global.y == (p.y - local.y) * global.height / local.height;
  }

  /** A distance, scaled. */
  function Along(origin: real, distance: real, scale: real): real {
    origin + distance * scale
  }

  /** The maps are affine: a step inside an element becomes the scaled step in the viewport. */
  lemma {:induction false} OutwardIsAffine(frames: seq<Frame>, p: Point, q: Point)
    ensures Outward(frames, p).x == Along(Outward(frames, q).x, p.x - q.x, ScaleX(frames))
    ensures Outward(frames, p).y == Along(Outward(frames, q).y, p.y - q.y, ScaleY(frames))
    decreases |frames|
  {
    if frames != [] {
      hide Outside, Along;
      var n := |frames| - 1;
      OutwardIsAffine(frames[..n], p, q);
      var f, o := frames[n], Outward(frames[..n], q);
      OutsideAlong(f.x, f.borderX, f.scaleX, o.x, p.x - q.x, ScaleX(frames[..n]));
      OutsideAlong(f.y, f.borderY, f.scaleY, o.y, p.y - q.y, ScaleY(frames[..n]));
    }
  }

  lemma OutsideAlong(offset: real, border: real, scale: real, origin: real, distance: real, inner: real)
    ensures Outside(offset, border, scale, Along(origin, distance, inner))
      == Along(Outside(offset, border, scale, origin), distance, inner * scale)
  {
    Associates(distance, inner, scale);
  }

  /** A distance scaled as a share of the carried side. */
  lemma Shares(origin: real, d: real, w: real, s: real, g: real)
    requires w != 0.0 && g == w * s
    ensures origin + d * g / w == Along(origin, d, s)
  {
    Cancels(d * s, w);
    assert d * (w * s) == d * s * w;
  }

  /** The action point is the hit-tested point carried out through the followed frames. */
  lemma ViewportPointIsOutward(frames: seq<Frame>, p: Point, local: Rect)
    requires local.width > 0.0 && local.height > 0.0
    ensures ViewportPoint(p, local, Carried(frames, local)) == Outward(frames, p)
  {
    hide Outward, ScaleX, ScaleY, Along;
    var corner := Point(local.x, local.y);
    var global := Carried(frames, local);
    OutwardIsAffine(frames, p, corner);
    Shares(global.x, p.x - local.x, local.width, ScaleX(frames), global.width);
    Shares(global.y, p.y - local.y, local.height, ScaleY(frames), global.height);
  }

  /** So it is the viewport point of the hit test exactly when the frames beyond the sixteenth leave it where
      it is; always, for a chain of at most sixteen. */
  lemma ActionPointIsViewportPointIff(frames: seq<Frame>, p: Point, local: Rect)
    requires local.width > 0.0 && local.height > 0.0
    ensures var q := ViewportPoint(p, local, Carried(Followed(frames), local));
      q == Outward(frames, p) <==> |frames| <= CHAIN_LIMIT || Outward(frames[CHAIN_LIMIT..], q) == q
  {
    ViewportPointIsOutward(Followed(frames), p, local);
    if |frames| > CHAIN_LIMIT {
      OutwardJoins(frames, CHAIN_LIMIT, p);
    }
  }

  datatype Target = Hit(point: Point) | OutsideViewport | Obscured

  function Clipped(rect: Rect, width: real, height: real): Rect {
    var left, top := if rect.x > 0.0 then rect.x else 0.0, if rect.y > 0.0 then rect.y else 0.0;
    var right, bottom := if rect.x + rect.width < width then rect.x + rect.width else width,
                         if rect.y + rect.height < height then rect.y + rect.height else height;
    Rect(left, top, right - left, bottom - top)
  }

  /** The five places that are tried, in order. */
  function Sample(r: Rect, k: nat): Point
    requires k < 5
  {
    var fx, fy := [0.5, 0.2, 0.8, 0.2, 0.8][k], [0.5, 0.2, 0.2, 0.8, 0.8][k];
    Point(r.x + r.width * fx, r.y + r.height * fy)
  }

  predicate InViewport(p: Point, width: real, height: real) {
    0.0 <= p.x < width && 0.0 <= p.y < height
  }

  /** Where they lie: in the middle first, and all inside what the viewport shows of the element. */
  lemma SamplesLieInside(local: Rect, width: real, height: real, k: nat)
    requires k < 5 && Clipped(local, width, height).width > 0.0 && Clipped(local, width, height).height > 0.0
    ensures var p := Sample(Clipped(local, width, height), k);
      && local.x < p.x < local.x + local.width && local.y < p.y < local.y + local.height
      && 0.0 < p.x < width && 0.0 < p.y < height
    ensures var shown := Clipped(local, width, height);
      Sample(shown, 0) == Point(shown.x + shown.width / 2.0, shown.y + shown.height / 2.0)
  {
  }

  /** The visible part is where element and viewport overlap: a point is in it exactly when it is in both. */
  lemma ClippedIsOverlap(local: Rect, width: real, height: real, p: Point)
    ensures var shown := Clipped(local, width, height);
      (shown.x <= p.x < shown.x + shown.width && shown.y <= p.y < shown.y + shown.height) <==>
        && local.x <= p.x < local.x + local.width && local.y <= p.y < local.y + local.height
        && InViewport(p, width, height)
  {
  }

  datatype Verdict = Accepted | PointerOutside | TargetObscured

  /** The check right before the button is pressed, against the viewport of the page. */
  function VerifyPoint(hit: (nat, Point) -> bool, frames: seq<Frame>, local: Rect, p: Point,
                       width: real, height: real): Verdict
    requires Upright(frames) && local.width > 0.0 && local.height > 0.0
  {
    ScalesPositive(Followed(frames));
    var global := Carried(Followed(frames), local);
    if !InViewport(p, width, height) then PointerOutside
    else if HitAt(hit, 0, frames, LocalPoint(p, local, global)) then Accepted
    else TargetObscured
  }

  /** The first sample that hits on every level is carried out; testing the result again tests that sample. */
  method ActionPoint(hit: (nat, Point) -> bool, frames: seq<Frame>, local: Rect, width: real, height: real)
    returns (r: Target, ghost sample: nat)
    requires Upright(frames) && local.width > 0.0 && local.height > 0.0
    ensures var inner := Clipped(local, width, height);
      match r
      case OutsideViewport => inner.width <= 0.0 || inner.height <= 0.0
      case Obscured =>
        inner.width > 0.0 && inner.height > 0.0 && forall k :: 0 <= k < 5 ==> !HitAt(hit, 0, frames, Sample(inner, k))
      case Hit(q) =>
        && sample < 5 && inner.width > 0.0 && inner.height > 0.0
        && HitAt(hit, 0, frames, Sample(inner, sample))
        && (forall k :: 0 <= k < sample ==> !HitAt(hit, 0, frames, Sample(inner, k)))
        && q == Outward(Followed(frames), Sample(inner, sample))
        && var global := Carried(Followed(frames), local);
           global.width > 0.0 && global.height > 0.0 && LocalPoint(q, local, global) == Sample(inner, sample)
    ensures r.Hit? ==> forall w: real, h: real :: VerifyPoint(hit, frames, local, r.point, w, h) != TargetObscured
  {
    sample := 0;
    var inner := Clipped(local, width, height);
    if inner.width <= 0.0 || inner.height <= 0.0 {
      return OutsideViewport, sample;
    }
    var k := 0;
    while k < 5
      invariant k <= 5
      invariant forall j :: 0 <= j < k ==> !HitAt(hit, 0, frames, Sample(inner, j))
    {
      var p := Sample(inner, k);
      if HitAt(hit, 0, frames, p) {
        var global := RectFor(local, frames);
        ScalesPositive(Followed(frames));
        ViewportPointIsOutward(Followed(frames), p, local);
        LocalPointRecovers(p, local, global);
        return Hit(ViewportPoint(p, local, global)), k;
      }
      k := k + 1;
    }
    r := Obscured;
  }

  // ----- the element at a point

  /** An element that may lead on: a frame to its document, a host to its shadow root. */
  datatype Element = Element(frame: Option<Frame>, supported: bool, content: Option<nat>)

  datatype Place = Found(element: nat) | Missing | Unsupported | OffScreen

  /** `top(root, p)` is what the document or shadow root `root` shows at `p`: an element whose content lies
      deeper, or the host of the shadow root itself. */
  ghost predicate Nested(top: (nat, Point) -> Option<nat>, look: nat -> Element, deepest: nat) {
    && (forall e: nat :: look(e).frame.Some? && look(e).supported ==> IsUpright(look(e).frame.value))
    && forall root: nat, p: Point :: top(root, p).Some? && look(top(root, p).value).content.Some? ==>
      var e := look(top(root, p).value);
      root <= e.content.value <= deepest && (root == e.content.value ==> e.frame.None?)
  }

  /** Where the way in through the elements `path` ends: the document or shadow root of the last one. */
  function RootAfter(look: nat -> Element, path: seq<nat>): nat {
    if path == [] then 0
    else
      var e := look(path[|path| - 1]);
      if e.content.Some? then e.content.value else 0
  }

  /** The frames among them, from the innermost to the outermost. */
  function FramesOf(look: nat -> Element, path: seq<nat>): seq<Frame> {
    if path == [] then []
    else
      var e := look(path[|path| - 1]);
      (if e.frame.Some? then [e.frame.value] else []) + FramesOf(look, path[..|path| - 1])
  }

  /** Each element of the way is what its root shows at the point carried in so far, and leads on. */
  ghost predicate WayIn(top: (nat, Point) -> Option<nat>, look: nat -> Element, p: Point, path: seq<nat>)
    decreases |path|
  {
    && Upright(FramesOf(look, path))
    && (path != [] ==>
          var n := |path| - 1;
          && WayIn(top, look, p, path[..n])
          && top(RootAfter(look, path[..n]), Inward(FramesOf(look, path[..n]), p)) == Some(path[n])
          && look(path[n]).content.Some? && (look(path[n]).frame.Some? ==> look(path[n]).supported))
  }

  /** What is shown at the end of a way. */
  ghost function ShownAfter(top: (nat, Point) -> Option<nat>, look: nat -> Element, p: Point, path: seq<nat>): Option<nat>
    requires WayIn(top, look, p, path)
  {
    top(RootAfter(look, path), Inward(FramesOf(look, path), p))
  }

  /** The element leads no further: it has no content to look into, or its content shows it again. */
  ghost predicate LeadsNowhere(top: (nat, Point) -> Option<nat>, look: nat -> Element, e: nat, at: Point) {
    var x := look(e);
    || x.content.None?
    || (x.frame.None? && top(x.content.value, at) == Some(e))
    || (x.frame.Some? && IsUpright(x.frame.value) && top(x.content.value, Enter(x.frame.value, at)) == Some(e))
  }

  /** How the walk ends at the end of a way: at an element that leads no further, at a frame that is refused,
      or where nothing is shown. */
  ghost predicate EndsAt(top: (nat, Point) -> Option<nat>, look: nat -> Element, p: Point, path: seq<nat>, r: Place)
    requires WayIn(top, look, p, path)
  {
    var shown := ShownAfter(top, look, p, path);
    match r
    case Found(e) => shown == Some(e) && LeadsNowhere(top, look, e, Inward(FramesOf(look, path), p))
    case Missing => shown == None
    case Unsupported =>
      shown.Some? && look(shown.value).frame.Some? && look(shown.value).content.Some? && !look(shown.value).supported
    case OffScreen => path == []
  }

  /** The walk follows the one way in to its end. */
  method ElementAtPoint(top: (nat, Point) -> Option<nat>, look: nat -> Element, p: Point, width: real, height: real,
                        ghost deepest: nat)
    returns (r: Place, ghost path: seq<nat>)
    requires Nested(top, look, deepest)
    ensures r.OffScreen? <==> !InViewport(p, width, height)
    ensures WayIn(top, look, p, path) && EndsAt(top, look, p, path, r)
  {
    path := [];
    if !InViewport(p, width, height) {
      return OffScreen, path;
    }
    var root, point := 0, p;
    var element := top(root, point);
    while element.Some?
      invariant WayIn(top, look, p, path)
      invariant root == RootAfter(look, path) && point == Inward(FramesOf(look, path), p) && element == top(root, point)
      decreases if element.Some? && look(element.value).content.Some? then deepest - root else -1, element.Some?
    {
      var e := look(element.value);
      if e.content.None? {
        return Found(element.value), path;
      }
      if e.frame.Some? && !e.supported {
        return Unsupported, path;
      }
      WayGoesOn(top, look, p, path, element.value);
      ghost var longer := path + [element.value];
      assert longer[..|path|] == path;
      if e.frame.Some? {
        point := Enter(e.frame.value, point);
      }
      root := e.content.value;
      var next := top(root, point);
      if next == element {
        return Found(element.value), path;
      }
      path, element := longer, next;
    }
    r := Missing;
  }

  /** One more element on the way in. */
  lemma WayGoesOn(top: (nat, Point) -> Option<nat>, look: nat -> Element, p: Point, path: seq<nat>, e: nat)
    requires WayIn(top, look, p, path) && ShownAfter(top, look, p, path) == Some(e)
    requires look(e).content.Some? && (look(e).frame.Some? ==> look(e).supported && IsUpright(look(e).frame.value))
    ensures WayIn(top, look, p, path + [e])
    ensures RootAfter(look, path + [e]) == look(e).content.value
    ensures var at := Inward(FramesOf(look, path), p);
      Inward(FramesOf(look, path + [e]), p) == if look(e).frame.Some? then Enter(look(e).frame.value, at) else at
  {
    var longer := path + [e];
    assert longer[..|longer| - 1] == path && longer[|longer| - 1] == e;
    if look(e).frame.Some? {
      EntersLast(look(e).frame.value, FramesOf(look, path), p);
    } else {
      assert FramesOf(look, longer) == FramesOf(look, path);
    }
  }

  /** There is one way in: of two, one is the beginning of the other. */
  lemma {:induction false} OneWayIn(top: (nat, Point) -> Option<nat>, look: nat -> Element, p: Point,
                                    a: seq<nat>, b: seq<nat>)
    requires WayIn(top, look, p, a) && WayIn(top, look, p, b) && |a| <= |b|
    ensures a <= b
    decreases |b|
  {
    if |a| < |b| {
      OneWayIn(top, look, p, a, b[..|b| - 1]);
    } else if a != [] {
      OneWayIn(top, look, p, a[..|a| - 1], b[..|b| - 1]);
      assert a[..|a| - 1] == b[..|b| - 1];
    }
  }

  // ----- a click at coordinates

  /** `chain` is a way in and the element it ends at; the hit test asks for the last element and for the
      hosts of the shadow roots around it, in one document. */
  function DocumentHit(top: (nat, Point) -> Option<nat>, look: nat -> Element, contains: (nat, nat) -> bool,
                       chain: seq<nat>, q: Point): bool
    requires chain != []
    decreases |chain|
  {
    var n := |chain| - 1;
    var shown := top(RootAfter(look, chain[..n]), q);
    && shown.Some? && contains(chain[n], shown.value)
    && (n == 0 || look(chain[n - 1]).frame.Some? || DocumentHit(top, look, contains, chain[..n], q))
  }

  /** No frame lies between the `j`-th element of the chain and its end. */
  predicate SameDocument(look: nat -> Element, chain: seq<nat>, j: nat) {
    j < |chain| && forall i :: j <= i < |chain| - 1 ==> look(chain[i]).frame.None?
  }

  /** The `j`-th element of the chain is on top in the root it lies in. */
  predicate OnTop(top: (nat, Point) -> Option<nat>, look: nat -> Element, contains: (nat, nat) -> bool, chain: seq<nat>,
                  q: Point, j: nat) {
    && j < |chain|
    && var shown := top(RootAfter(look, chain[..j]), q);
       shown.Some? && contains(chain[j], shown.value)
  }

  lemma SameInOuter(top: (nat, Point) -> Option<nat>, look: nat -> Element, contains: (nat, nat) -> bool, chain: seq<nat>,
                    q: Point, j: nat)
    requires j + 1 < |chain|
    ensures var outer := chain[..|chain| - 1];
      && OnTop(top, look, contains, chain, q, j) == OnTop(top, look, contains, outer, q, j)
      && (SameDocument(look, chain, j) <==> SameDocument(look, outer, j) && look(chain[|chain| - 2]).frame.None?)
  {
    hide RootAfter;
    var outer := chain[..|chain| - 1];
    assert chain[..j] == outer[..j];
    assert forall i :: 0 <= i < |chain| - 1 ==> outer[i] == chain[i];
  }

  /** A document is hit exactly when the last element and every host around it in the document are on top. */
  lemma {:induction false} DocumentHitMeans(top: (nat, Point) -> Option<nat>, look: nat -> Element,
                                            contains: (nat, nat) -> bool, chain: seq<nat>, q: Point)
    requires chain != []
    ensures DocumentHit(top, look, contains, chain, q) <==>
      forall j: nat :: SameDocument(look, chain, j) ==> OnTop(top, look, contains, chain, q, j)
    decreases |chain|
  {
    var n := |chain| - 1;
    DocumentHitStep(top, look, contains, chain, q);
    forall j: nat | j < n
      ensures OnTop(top, look, contains, chain, q, j) == OnTop(top, look, contains, chain[..n], q, j)
      ensures SameDocument(look, chain, j) <==> SameDocument(look, chain[..n], j) && look(chain[n - 1]).frame.None?
    {
      SameInOuter(top, look, contains, chain, q, j);
    }
    hide SameDocument, OnTop, DocumentHit;
    if n > 0 && look(chain[n - 1]).frame.None? {
      DocumentHitMeans(top, look, contains, chain[..n], q);
    }
  }

  lemma DocumentHitStep(top: (nat, Point) -> Option<nat>, look: nat -> Element, contains: (nat, nat) -> bool, chain: seq<nat>,
                        q: Point)
    requires chain != []
    ensures var n := |chain| - 1;
      && SameDocument(look, chain, n) && (forall j: nat :: SameDocument(look, chain, j) ==> j <= n)
      && (DocumentHit(top, look, contains, chain, q) <==>
            && OnTop(top, look, contains, chain, q, n)
            && (n == 0 || look(chain[n - 1]).frame.Some? || DocumentHit(top, look, contains, chain[..n], q)))
  {
    hide RootAfter;
  }

  /** The chain of the frame element that holds the document; none for the main document. */
  function OuterChain(look: nat -> Element, chain: seq<nat>): (r: seq<nat>)
    decreases |chain|
  {
    if |chain| <= 1 then []
    else if look(chain[|chain| - 2]).frame.Some? then chain[..|chain| - 1]
    else OuterChain(look, chain[..|chain| - 1])
  }

  function ChainAt(look: nat -> Element, chain: seq<nat>, level: nat): seq<nat> {
    if level == 0 then chain else OuterChain(look, ChainAt(look, chain, level - 1))
  }

  /** The hit test of `hitAt`, document by document. */
  function HitTest(top: (nat, Point) -> Option<nat>, look: nat -> Element, contains: (nat, nat) -> bool,
                   chain: seq<nat>): (nat, Point) -> bool
  {
    (level: nat, q: Point) =>
      ChainAt(look, chain, level) != [] && DocumentHit(top, look, contains, ChainAt(look, chain, level), q)
  }

  ghost predicate IsChain(top: (nat, Point) -> Option<nat>, look: nat -> Element, p: Point, chain: seq<nat>) {
    && chain != [] && WayIn(top, look, p, chain[..|chain| - 1])
    && ShownAfter(top, look, p, chain[..|chain| - 1]) == Some(chain[|chain| - 1])
  }

  /** What is shown on the way in is hit there, and so are its hosts. */
  lemma {:induction false} ChainIsHit(top: (nat, Point) -> Option<nat>, look: nat -> Element, contains: (nat, nat) -> bool,
                                      p: Point, chain: seq<nat>)
    requires IsChain(top, look, p, chain) && forall e: nat :: contains(e, e)
    ensures DocumentHit(top, look, contains, chain, Inward(FramesOf(look, chain[..|chain| - 1]), p))
    decreases |chain|
  {
    var n := |chain| - 1;
    if n > 0 && look(chain[n - 1]).frame.None? {
      assert chain[..n][..n - 1] == chain[..n - 1];
      assert FramesOf(look, chain[..n]) == FramesOf(look, chain[..n - 1]);
      ChainIsHit(top, look, contains, p, chain[..n]);
    }
  }

  /** The frame element that holds the document ends a chain itself, and the way to it has one frame less. */
  lemma {:induction false} OuterIsChain(top: (nat, Point) -> Option<nat>, look: nat -> Element, p: Point, chain: seq<nat>)
    requires IsChain(top, look, p, chain) && FramesOf(look, chain[..|chain| - 1]) != []
    ensures var outer := OuterChain(look, chain);
      && IsChain(top, look, p, outer) && look(outer[|outer| - 1]).frame.Some?
      && FramesOf(look, chain[..|chain| - 1]) == [look(outer[|outer| - 1]).frame.value] + FramesOf(look, outer[..|outer| - 1])
    decreases |chain|
  {
    var n := |chain| - 1;
    var init := chain[..n];
    assert init[..n - 1] == chain[..n - 1] && init[n - 1] == chain[n - 1];
    if look(chain[n - 1]).frame.None? {
      assert FramesOf(look, init) == FramesOf(look, init[..n - 1]);
      OuterIsChain(top, look, p, init);
    }
  }

  /** Going out through that frame one meets the point carried in to its own document. */
  lemma OuterMeets(top: (nat, Point) -> Option<nat>, look: nat -> Element, p: Point, chain: seq<nat>, frames: seq<Frame>)
    requires IsChain(top, look, p, chain) && frames == FramesOf(look, chain[..|chain| - 1]) != []
    ensures var outer := OuterChain(look, chain);
      && IsChain(top, look, p, outer) && Upright(frames) && |FramesOf(look, outer[..|outer| - 1])| < |frames|
      && frames[1..] == FramesOf(look, outer[..|outer| - 1]) && Upright(frames[1..])
      && Leave(frames[0], Inward(frames, p)) == Inward(frames[1..], p)
  {
    OuterIsChain(top, look, p, chain);
    hide IsChain, ShownAfter, OuterChain, FramesOf;
    var outer := OuterChain(look, chain);
    var f, rest := look(outer[|outer| - 1]).frame.value, FramesOf(look, outer[..|outer| - 1]);
    assert Upright(frames) by { assert WayIn(top, look, p, chain[..|chain| - 1]) by { ChainIsWay(top, look, p, chain); } }
    assert frames == [f] + rest && frames[1..] == rest && frames[0] == f;
    EntersLast(f, rest, p);
    LeaveEnter(f, Inward(rest, p));
  }

  lemma ChainIsWay(top: (nat, Point) -> Option<nat>, look: nat -> Element, p: Point, chain: seq<nat>)
    requires IsChain(top, look, p, chain)
    ensures chain != [] && WayIn(top, look, p, chain[..|chain| - 1]) && Upright(FramesOf(look, chain[..|chain| - 1]))
  {
  }

  /** So the whole hit test succeeds at the point carried in. */
  lemma {:induction false} WayInIsHit(top: (nat, Point) -> Option<nat>, look: nat -> Element, contains: (nat, nat) -> bool,
                                      p: Point, chain: seq<nat>, level: nat, c: seq<nat>, frames: seq<Frame>)
    requires c == ChainAt(look, chain, level) && IsChain(top, look, p, c) && frames == FramesOf(look, c[..|c| - 1])
    requires Upright(frames) && forall e: nat :: contains(e, e)
    ensures HitAt(HitTest(top, look, contains, chain), level, frames, Inward(frames, p))
    decreases |frames|
  {
    ChainIsHit(top, look, contains, p, c);
    if frames != [] {
      OuterMeets(top, look, p, c, frames);
      hide IsChain, OuterChain, FramesOf, DocumentHit, Inward, Leave;
      WayInIsHit(top, look, contains, p, chain, level + 1, OuterChain(look, c), frames[1..]);
    }
  }

  /** From a viewport point `verifyPoint` tests the point carried in through the followed frames. */
  lemma LocalPointIsInward(frames: seq<Frame>, p: Point, local: Rect)
    requires Upright(frames) && local.width > 0.0 && local.height > 0.0
    ensures var global := Carried(frames, local);
      global.width > 0.0 && global.height > 0.0 && LocalPoint(p, local, global) == Inward(frames, p)
  {
    ScalesPositive(frames);
    var q := Inward(frames, p);
    InwardOutward(frames, p);
    ViewportPointIsOutward(frames, q, local);
    LocalPointRecovers(q, local, Carried(frames, local));
  }

  /** It is the point carried in through all frames exactly when the frames beyond the sixteenth leave the
      viewport point where it is; always, for a chain of at most sixteen. */
  lemma LocalPointIsCarriedInIff(frames: seq<Frame>, p: Point, local: Rect)
    requires Upright(frames) && local.width > 0.0 && local.height > 0.0
    ensures var global := Carried(Followed(frames), local);
      && global.width > 0.0 && global.height > 0.0
      && (LocalPoint(p, local, global) == Inward(frames, p) <==>
            |frames| <= CHAIN_LIMIT || Inward(frames[CHAIN_LIMIT..], p) == p)
  {
    LocalPointIsInward(Followed(frames), p, local);
    if |frames| > CHAIN_LIMIT {
      var inner, outer := frames[..CHAIN_LIMIT], frames[CHAIN_LIMIT..];
      InwardOutward(frames, p);
      InwardMeets(frames, CHAIN_LIMIT, Inward(frames, p));
      InwardOutward(inner, Inward(frames, p));
      InwardOutward(inner, p);
    }
  }

  /** One frame too many, moved aside by one unit: the action point misses, and so does the test of a given point. */
  lemma SeventeenFramesMiss(p: Point, local: Rect) returns (frames: seq<Frame>)
    requires local.width > 0.0 && local.height > 0.0
    ensures |frames| == 17 && Upright(frames)
    ensures ViewportPoint(p, local, Carried(Followed(frames), local)) != Outward(frames, p)
    ensures var global := Carried(Followed(frames), local);
      global.width > 0.0 && global.height > 0.0 && LocalPoint(p, local, global) != Inward(frames, p)
  {
    var aside := Frame(1.0, 0.0, 1.0, 1.0, 0.0, 0.0);
    frames := seq(CHAIN_LIMIT + 1, _ => aside);
    ActionPointIsViewportPointIff(frames, p, local);
    var q := ViewportPoint(p, local, Carried(Followed(frames), local));
    assert frames[CHAIN_LIMIT..] == [aside] && [aside][..0] == [];
    assert Outward([aside], q) == Leave(aside, Outward([aside][..0], q)) == Leave(aside, q);
    assert Leave(aside, q).x == q.x + 1.0;
    LocalPointIsCarriedInIff(frames, p, local);
    assert Inward([aside], p) == Inward([aside][..0], Enter(aside, p)) == Enter(aside, p);
    assert Enter(aside, p).x == p.x - 1.0;
  }

  /** With at most sixteen frames on the way, checking the very point one came by accepts the element. */
  lemma ShownIsNotObscured(top: (nat, Point) -> Option<nat>, look: nat -> Element, contains: (nat, nat) -> bool, p: Point,
                           path: seq<nat>, e: nat, local: Rect, width: real, height: real)
    requires WayIn(top, look, p, path) && ShownAfter(top, look, p, path) == Some(e) && forall e: nat :: contains(e, e)
    requires local.width > 0.0 && local.height > 0.0 && |FramesOf(look, path)| <= CHAIN_LIMIT
    ensures VerifyPoint(HitTest(top, look, contains, path + [e]), FramesOf(look, path), local, p, width, height)
      == if InViewport(p, width, height) then Accepted else PointerOutside
  {
    var chain, frames := path + [e], FramesOf(look, path);
    assert chain[..|chain| - 1] == path;
    WayInIsHit(top, look, contains, p, chain, 0, chain, frames);
    hide WayIn, ShownAfter, FramesOf, HitAt, HitTest, Inward, Carried, LocalPoint, ScaleX, ScaleY, Outward;
    LocalPointIsCarriedInIff(frames, p, local);
  }

  /** A click at coordinates: the element at the point is found, and the check of the point does not refuse it. */
  method PrepareAtPoint(top: (nat, Point) -> Option<nat>, look: nat -> Element, contains: (nat, nat) -> bool,
                        rectOf: nat -> Rect, p: Point, width: real, height: real, ghost deepest: nat)
    returns (r: Place, ghost path: seq<nat>)
    requires Nested(top, look, deepest) && (forall e: nat :: contains(e, e))
    requires forall e: nat :: rectOf(e).width > 0.0 && rectOf(e).height > 0.0
    ensures r.OffScreen? <==> !InViewport(p, width, height)
    ensures WayIn(top, look, p, path) && EndsAt(top, look, p, path, r)
    ensures r.Found? && |FramesOf(look, path)| <= CHAIN_LIMIT ==>
      VerifyPoint(HitTest(top, look, contains, path + [r.element]), FramesOf(look, path), rectOf(r.element), p,
                  width, height) == Accepted
  {
    r, path := ElementAtPoint(top, look, p, width, height, deepest);
    hide Nested, LeadsNowhere, HitAt, HitTest, Inward, Carried, LocalPoint, VerifyPoint;
    if r.Found? && |FramesOf(look, path)| <= CHAIN_LIMIT {
      ShownIsNotObscured(top, look, contains, p, path, r.element, rectOf(r.element), width, height);
    }
  }
}
