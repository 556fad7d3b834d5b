/**
 * Hit records and the scene aggregate of src/hitable.rs.
 *
 * `HitableList` holds boxed trait objects; here it is generic in the element type
 * `T`, and the dynamic dispatch of `Hitable::hit` is the function `hit: HitFn<T>`
 * that the caller supplies. The nearest-hit search is the loop of
 * `HitableList::hit`; `Closest` is the same fold written as a function, and the
 * lemmas below characterise its result as the first nearest hit.
 */
module Hitables {
  import opened Optional
  import opened Vectors

  /** Rust's half-open `Range<f32>` over ray parameters. */
  datatype Range = Range(start: real, end: real) {
    /** `Range::contains`: `start <= t < end`. */
    predicate Contains(t: real) { start <= t < end }
  }

  /** `HitRecord { t, p, n }`; `HitRecord::new` is this constructor. */
  datatype HitRecord = HitRecord(t: real, p: Vec3, n: Vec3)

  /** The `Hitable::hit` query of one element: a ray and a range give an optional hit. */
  type HitFn<-T> = (T, Ray, Range) -> Option<HitRecord>

  /** `closest_so_far` for a given best hit: its `t`, or the range's end if there is none. */
  function Bound(closest: Option<HitRecord>, end: real): real
  {
    if closest.Some? then closest.value.t else end
  }

  /**
   * The result of the loop of `HitableList::hit` after the elements `items`: each
   * element is queried with the range cut at the best `t` so far, and any hit it
   * reports replaces the best one.
   */
  function Closest<T>(items: seq<T>, hit: HitFn<T>, ray: Ray, range: Range): Option<HitRecord>
    decreases |items|
  {
    if |items| == 0 then None
    else
      var before := Closest(items[..|items| - 1], hit, ray, range);
      var h := hit(items[|items| - 1], ray, Range(range.start, Bound(before, range.end)));
      if h.Some? then h else before
  }

  /** Every hit an element reports lies in the range it was asked about. */
  ghost predicate WithinRange<T(!new)>(hit: HitFn<T>)
  {
    forall e: T, ray: Ray, range: Range ::
      hit(e, ray, range).Some? ==> range.Contains(hit(e, ray, range).value.t)
  }

  /** `h` restricted to parameters below `end`. */
  function Cut(h: Option<HitRecord>, end: real): Option<HitRecord>
  {
    if h.Some? && h.value.t < end then h else None
  }

  /**
   * Lowering the end of the range only drops hits at or beyond the new end: this
   * holds of an element that reports its smallest root inside the range.
   */
  ghost predicate Narrowable<T(!new)>(hit: HitFn<T>)
  {
    forall e: T, ray: Ray, start: real, end1: real, end2: real ::
      end1 <= end2 ==>
        hit(e, ray, Range(start, end1)) == Cut(hit(e, ray, Range(start, end2)), end1)
  }

  /** `closest_so_far` starts at the range's end and never grows past it. */
  lemma {:induction false} ClosestWithinRange<T(!new)>(items: seq<T>, hit: HitFn<T>, ray: Ray, range: Range)
    requires WithinRange(hit)
    ensures Bound(Closest(items, hit, ray, range), range.end) <= range.end
    ensures Closest(items, hit, ray, range).Some? ==>
              range.Contains(Closest(items, hit, ray, range).value.t)
  {
    if |items| > 0 {
      ClosestWithinRange(items[..|items| - 1], hit, ray, range);
    }
  }

  /** Each step of the loop can only lower `closest_so_far`. */
  lemma BoundNeverIncreases<T(!new)>(items: seq<T>, hit: HitFn<T>, ray: Ray, range: Range, i: nat)
    requires WithinRange(hit)
    requires i < |items|
    ensures Bound(Closest(items[..i + 1], hit, ray, range), range.end)
            <= Bound(Closest(items[..i], hit, ray, range), range.end)
  {
    assert items[..i + 1][..i] == items[..i];
  }

  /**
   * No hit anywhere in the list is nearer than the result: whenever an element hits
   * within the full range, the list reports a hit at a `t` no greater than that one.
   */
  lemma {:induction false} ClosestIsNearest<T(!new)>(items: seq<T>, hit: HitFn<T>, ray: Ray, range: Range)
    requires WithinRange(hit) && Narrowable(hit)
    ensures forall j :: 0 <= j < |items| && hit(items[j], ray, range).Some? ==>
              Closest(items, hit, ray, range).Some? &&
              Closest(items, hit, ray, range).value.t <= hit(items[j], ray, range).value.t
  {
    if |items| > 0 {
      var n := |items| - 1;
      var init := items[..n];
      ClosestIsNearest(init, hit, ray, range);
      ClosestWithinRange(init, hit, ray, range);
      var before := Closest(init, hit, ray, range);
      var bound := Bound(before, range.end);
      assert hit(items[n], ray, Range(range.start, bound))
          == Cut(hit(items[n], ray, Range(range.start, range.end)), bound);
      forall j | 0 <= j < |items| && hit(items[j], ray, range).Some?
        ensures Closest(items, hit, ray, range).Some?
        ensures Closest(items, hit, ray, range).value.t <= hit(items[j], ray, range).value.t
      {
        if j < n {
          assert init[j] == items[j];
        }
      }
    }
  }

  /**
   * The reported hit is the full-range hit of some element `k`, and every element
   * before `k` either misses or hits strictly farther away: among equally near hits
   * the first in list order wins.
   */
  lemma {:induction false} ClosestIsFirstNearest<T(!new)>(items: seq<T>, hit: HitFn<T>, ray: Ray, range: Range)
    requires WithinRange(hit) && Narrowable(hit)
    ensures Closest(items, hit, ray, range).Some? ==>
              exists k :: 0 <= k < |items| &&
                hit(items[k], ray, range) == Closest(items, hit, ray, range) &&
                forall j :: 0 <= j < k && hit(items[j], ray, range).Some? ==>
                  hit(items[j], ray, range).value.t > Closest(items, hit, ray, range).value.t
  {
    if |items| > 0 {
      var n := |items| - 1;
      var init := items[..n];
      ClosestIsNearest(init, hit, ray, range);
      ClosestIsFirstNearest(init, hit, ray, range);
      ClosestWithinRange(init, hit, ray, range);
      var before := Closest(init, hit, ray, range);
      var bound := Bound(before, range.end);
      var h := hit(items[n], ray, Range(range.start, bound));
      assert h == Cut(hit(items[n], ray, Range(range.start, range.end)), bound);
      var result := Closest(items, hit, ray, range);
      if h.Some? {
        assert result == h;
        forall j | 0 <= j < n && hit(items[j], ray, range).Some?
          ensures hit(items[j], ray, range).value.t > result.value.t
        {
          assert init[j] == items[j];
        }
      } else if before.Some? {
        assert result == before;
        var k :| 0 <= k < |init| &&
          hit(init[k], ray, range) == before &&
          forall j :: 0 <= j < k && hit(init[j], ray, range).Some? ==>
            hit(init[j], ray, range).value.t > before.value.t;
        forall j | 0 <= j < k && hit(items[j], ray, range).Some?
          ensures hit(items[j], ray, range).value.t > result.value.t
        {
          assert init[j] == items[j];
        }
        assert hit(items[k], ray, range) == result;
      }
    }
  }

  /** The list reports no hit exactly when no element hits within the full range. */
  lemma ClosestNoneIffAllMiss<T(!new)>(items: seq<T>, hit: HitFn<T>, ray: Ray, range: Range)
    requires WithinRange(hit) && Narrowable(hit)
    ensures Closest(items, hit, ray, range).None? <==>
              forall j :: 0 <= j < |items| ==> hit(items[j], ray, range).None?
  {
    ClosestIsNearest(items, hit, ray, range);
    ClosestIsFirstNearest(items, hit, ray, range);
  }

  /** The scene aggregate: a list of hitables that is itself queried like one. */
  class HitableList<T> {
    var items: seq<T>

    /** `HitableList::new`: an empty list. */
    constructor ()
      ensures items == []
    {
      items := [];
    }

    /** `HitableList::push`: appends at the end, keeping the earlier elements in order. */
    method Push(hitable: T)
      modifies this
      ensures items == old(items) + [hitable]
    {
      items := items + [hitable];
    }

    /**
     * `Hitable::hit` for the list: queries every element in order with the range
     * cut at the nearest hit found so far.
     */
    method Hit(hit: HitFn<T>, ray: Ray, range: Range) returns (closestHit: Option<HitRecord>)
      ensures closestHit == Closest(items, hit, ray, range)
      ensures items == [] ==> closestHit.None?
    {
      closestHit := None;
      var closestSoFar := range.end;
      for i := 0 to |items|
        invariant closestHit == Closest(items[..i], hit, ray, range)
        invariant closestSoFar == Bound(closestHit, range.end)
      {
        assert items[..i + 1][..i] == items[..i];
        var h := hit(items[i], ray, Range(range.start, closestSoFar));
        if h.Some? {
          closestSoFar := h.value.t;
          closestHit := h;
        }
      }
      assert items[..|items|] == items;
    }
  }
}
