/**
 * The simulated availability that the station listing attaches to every
 * station record (`list_stations` in main.py). A station with `capacity`
 * connectors is shown as having `now % (capacity + 1)` of them occupied,
 * where `now` is the current wall-clock second, and the rest available.
 */
module Stations {
  import opened Wrappers

  /** The capacity assumed for a record that has none. */
  const DEFAULT_CAPACITY := 4

  /** The HTTP status the listing answers with when computing it fails. */
  const INTERNAL_ERROR := 500

  /**
   * A station document as read from the store. It keeps the fields the
   * listing reads or writes, plus `name` and `city` standing for the fields
   * that pass through untouched; latitude, longitude, power rating, price
   * and brand are not kept.
   */
  datatype StationDoc = StationDoc(
    objectId: Option<string>,  // the text of the store's `_id`, if any
    name: string,
    city: string,
    capacity: Option<int>,     // absent when the document has no capacity
    available: Option<int>,
    id: Option<string>)

  datatype HttpError = HttpError(status: int)

  lemma MulAtLeast(d: int, m: int)
    requires d >= 1 && m > 0
    ensures d * m >= m
  {
    assert d * m == (d - 1) * m + m;
  }

  /** Euclidean remainders are unique: `r` is `a % m` once `a == q * m + r`. */
  lemma ModUnique(a: int, m: int, q: int, r: int)
    requires m > 0 && 0 <= r < m && a == q * m + r
    ensures a % m == r
  {
    var q0, r0 := a / m, a % m;
    var d := q - q0;
    assert d * m == r0 - r by {
      assert q * m - q0 * m == (q - q0) * m;
    }
    if d >= 1 {
      MulAtLeast(d, m);
    } else if d <= -1 {
      MulAtLeast(-d, m);
    }
  }

  /** Python's `a % b`: the remainder has the sign of the divisor. */
  function PyMod(a: int, b: int): (r: int)
    requires b != 0
    ensures b > 0 ==> 0 <= r < b
    ensures b < 0 ==> b < r <= 0
    ensures (a - r) % (if b > 0 then b else -b) == 0
  {
    if b > 0 then
      ModUnique(a - a % b, b, a / b, 0);
      a % b
    else
      var m := -b;
      ModUnique(a + (-a) % m, m, -((-a) / m), 0);
      -((-a) % m)
  }

  /** Python's `max(0, x)`. */
  function ClampAtZero(x: int): (r: nat)
    ensures r >= x && (r == 0 || r == x)
  {
    if x > 0 then x else 0
  }

  /** The capacity the listing uses: the record's own, else the default. */
  function EffectiveCapacity(doc: StationDoc): int {
    doc.capacity.GetOr(DEFAULT_CAPACITY)
  }

  /** How many connectors are shown as occupied at second `now`. */
  function Occupied(now: int, capacity: int): (r: int)
    requires capacity != -1
    ensures capacity >= 0 ==> 0 <= r <= capacity
    ensures capacity < -1 ==> capacity + 1 < r <= 0
  {
    PyMod(now, capacity + 1)
  }

  /**
   * How many connectors are shown as available: never negative, never more
   * than the capacity; for a non-negative capacity the clamp at zero never
   * applies, and for a capacity below -1 nothing is ever available.
   */
  function Available(now: int, capacity: int): (r: nat)
    requires capacity != -1
    ensures capacity >= 0 ==> r == capacity - Occupied(now, capacity) && r <= capacity
    ensures capacity < -1 ==> r == 0
  {
    ClampAtZero(capacity - Occupied(now, capacity))
  }

  /** The simulation repeats every `capacity + 1` seconds. */
  lemma AvailablePeriodic(now: int, capacity: nat)
    ensures Available(now + capacity + 1, capacity) == Available(now, capacity)
  {
    var m := capacity + 1;
    ModUnique(now + m, m, now / m + 1, now % m);
  }

  /** Within the first cycle one more connector is taken every second. */
  lemma AvailableFirstCycle(now: nat, capacity: nat)
    requires now <= capacity
    ensures Available(now, capacity) == capacity - now
  {
    ModUnique(now, capacity + 1, 0, now);
  }

  /** The text `str(it.get("_id"))` gives for the store identifier. */
  function IdText(objectId: Option<string>): string {
    match objectId
    case Some(x) => x
    case None => "None"
  }

  /**
   * The record the listing returns for `doc` at second `now`, or None when
   * the formula divides by zero (an effective capacity of -1).
   */
  function Annotated(doc: StationDoc, now: int): (r: Option<StationDoc>)
    ensures r.None? <==> EffectiveCapacity(doc) == -1
    ensures r.Some? ==> r.value.objectId == doc.objectId && r.value.name == doc.name
                        && r.value.city == doc.city && r.value.capacity == doc.capacity
    ensures r.Some? ==> r.value.id == Some(IdText(doc.objectId))
    ensures r.Some? ==> r.value.available == Some(Available(now, EffectiveCapacity(doc)))
    ensures r.Some? && EffectiveCapacity(doc) >= 0 ==>
              0 <= r.value.available.value <= EffectiveCapacity(doc)
    ensures doc.capacity.None? ==> r.Some? && r.value.available == Some(4 - now % 5)
  {
    var capacity := EffectiveCapacity(doc);
    if capacity == -1 then None
    else Some(doc.(available := Some(Available(now, capacity)), id := Some(IdText(doc.objectId))))
  }

  /**
   * `list_stations`: annotate every record in order. A record whose capacity
   * is -1 raises a division by zero, which the handler reports as status 500.
   */
  method ListStations(items: seq<StationDoc>, now: int) returns (r: Result<seq<StationDoc>, HttpError>)
    ensures r.Ok? <==> forall i :: 0 <= i < |items| ==> EffectiveCapacity(items[i]) != -1
    ensures r.Err? ==> r.error == HttpError(INTERNAL_ERROR)
    ensures r.Ok? ==> |r.value| == |items|
    ensures r.Ok? ==> forall i :: 0 <= i < |items| ==> Annotated(items[i], now) == Some(r.value[i])
  {
    var result: seq<StationDoc> := [];
    for i := 0 to |items|
      invariant |result| == i
      invariant forall j :: 0 <= j < i ==> EffectiveCapacity(items[j]) != -1
      invariant forall j :: 0 <= j < i ==> Annotated(items[j], now) == Some(result[j])
    {
      var it := items[i];
      var capacity := it.capacity.GetOr(DEFAULT_CAPACITY);
      if capacity + 1 == 0 {
        assert EffectiveCapacity(items[i]) == -1;
        return Err(HttpError(INTERNAL_ERROR));
      }
      var occupied := PyMod(now, capacity + 1);
      var available := ClampAtZero(capacity - occupied);
      it := it.(available := Some(available), id := Some(IdText(it.objectId)));
      result := result + [it];
    }
    return Ok(result);
  }
}
