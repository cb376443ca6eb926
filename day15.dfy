/** Day 15: beacon exclusion zone. Each sensor covers the points within the
 *  Manhattan distance of its closest beacon. */
module Day15 {
  import opened Common
  import opened Text

  /** `Position`, with `isize` coordinates. */
  datatype Position = Position(x: int, y: int)

  /** `Position::distance`: Manhattan distance. */
  function Distance(a: Position, b: Position): (d: nat)
    ensures d == 0 <==> a == b
    ensures a.y == b.y ==> d == Abs(a.x - b.x)
    ensures a.x == b.x ==> d == Abs(a.y - b.y)
  {
    Abs(a.x - b.x) + Abs(a.y - b.y)
  }

  /** Distance is symmetric, vanishes exactly on equal points and obeys the
   *  triangle inequality. */
  lemma DistanceIsMetric(a: Position, b: Position, c: Position)
    ensures Distance(a, b) == Distance(b, a)
    ensures Distance(a, b) == 0 <==> a == b
    ensures Distance(a, c) <= Distance(a, b) + Distance(b, c)
  {
  }

  /** `Sensor`: where it sits, how far it senses and the beacon that set it. */
  datatype Sensor = Sensor(position: Position, radius: int, beacon: Position)

  /** `Sensor::can_sense`. */
  predicate CanSense(s: Sensor, target: Position)
  {
    Distance(s.position, target) <= s.radius
  }

  /** "x=.." or "y=..": a missing prefix panics, a bad number is an error. */
  function ParseCoordinate(s: string, prefix: string): (r: Result<int>)
    ensures r.Ok? ==> I64_MIN <= r.value <= I64_MAX
    ensures r.Ok? ==> StartsWith(s, prefix)
  {
    match StripPrefix(s, prefix)
    case None => Err(Panic)
    case Some(digits) =>
      match ParseSigned(digits, I64_MIN, I64_MAX)
      case None => Err(Error)
      case Some(v) => Ok(v)
  }

  /** "<lead>x=.., y=..", the x read first. */
  function ParsePosition(s: string, lead: string): (r: Result<Position>)
    ensures StripPrefix(s, lead).None? ==> r == Err(Panic)
    ensures r.Ok? ==> (StripPrefix(s, lead).Some? &&
      var parts := Split(StripPrefix(s, lead).value, ", ");
      |parts| >= 2 && ParseCoordinate(parts[0], "x=") == Ok(r.value.x) && ParseCoordinate(parts[1], "y=") == Ok(r.value.y))
  {
    match StripPrefix(s, lead)
    case None => Err(Panic)
    case Some(rest) =>
      var parts := Split(rest, ", ");
      match ParseCoordinate(parts[0], "x=")
      case Err(f) => Err(f)
      case Ok(x) =>
        if |parts| < 2 then Err(Panic)
        else
          match ParseCoordinate(parts[1], "y=")
          case Err(f) => Err(f)
          case Ok(y) => Ok(Position(x, y))
  }

  /** One line of `Field::from_str`: the sensor, then the beacon after ": ";
   *  the radius is the distance between them. */
  function ParseSensor(line: string): (r: Result<Sensor>)
    ensures r.Ok? ==> r.value.radius == Distance(r.value.position, r.value.beacon)
  {
    var elements := Split(line, ": ");
    match ParsePosition(elements[0], "Sensor at ")
    case Err(f) => Err(f)
    case Ok(sensor) =>
      if |elements| < 2 then Err(Panic)
      else
        match ParsePosition(elements[1], "closest beacon is at ")
        case Err(f) => Err(f)
        case Ok(beacon) => Ok(Sensor(sensor, Distance(sensor, beacon), beacon))
  }

  /** Every parsed sensor senses its own beacon. */
  lemma SensesOwnBeacon(line: string)
    requires ParseSensor(line).Ok?
    ensures CanSense(ParseSensor(line).value, ParseSensor(line).value.beacon)
  {
  }

  /** All lines, the first failure winning. */
  function ParseAll(lines: seq<string>): (r: Result<seq<Sensor>>)
    ensures r.Ok? ==> |r.value| == |lines|
  {
    if lines == [] then Ok([])
    else
      match ParseAll(lines[..|lines| - 1])
      case Err(f) => Err(f)
      case Ok(sensors) =>
        match ParseSensor(lines[|lines| - 1])
        case Err(f) => Err(f)
        case Ok(s) => Ok(sensors + [s])
  }

  /** Parsing one more line: its failure, or its sensor appended. */
  lemma ParseAllNext(lines: seq<string>, j: nat, sensors: seq<Sensor>)
    requires j < |lines| && ParseAll(lines[..j]) == Ok(sensors)
    ensures ParseSensor(lines[j]).Err? ==> ParseAll(lines[..j + 1]) == Err(ParseSensor(lines[j]).failure)
    ensures ParseSensor(lines[j]).Ok? ==> ParseAll(lines[..j + 1]) == Ok(sensors + [ParseSensor(lines[j]).value])
  {
    assert lines[..j + 1][..j] == lines[..j];
  }

  /** A failure in the first lines is the failure of the whole input. */
  lemma {:induction false} ParseAllFails(lines: seq<string>, j: nat)
    requires j <= |lines| && ParseAll(lines[..j]).Err?
    ensures ParseAll(lines) == ParseAll(lines[..j])
    decreases |lines|
  {
    if j < |lines| {
      assert lines[..|lines| - 1][..j] == lines[..j];
      ParseAllFails(lines[..|lines| - 1], j);
    } else {
      assert lines[..j] == lines;
    }
  }

  /** `min_sensing`: starts at (0, 0) and is lowered to each sensor's
   *  leftmost and topmost sensed coordinate. */
  function MinCorner(sensors: seq<Sensor>): Position
  {
    if sensors == [] then Position(0, 0)
    else
      var m := MinCorner(sensors[..|sensors| - 1]);
      var s := sensors[|sensors| - 1];
      Position(Min(m.x, s.position.x - s.radius), Min(m.y, s.position.y - s.radius))
  }

  /** `max_sensing`, the same upwards. */
  function MaxCorner(sensors: seq<Sensor>): Position
  {
    if sensors == [] then Position(0, 0)
    else
      var m := MaxCorner(sensors[..|sensors| - 1]);
      var s := sensors[|sensors| - 1];
      Position(Max(m.x, s.position.x + s.radius), Max(m.y, s.position.y + s.radius))
  }

  /** One more sensor widens each corner to its reach. */
  lemma CornersPush(sensors: seq<Sensor>, s: Sensor)
    ensures MinCorner(sensors + [s]) ==
      Position(Min(MinCorner(sensors).x, s.position.x - s.radius), Min(MinCorner(sensors).y, s.position.y - s.radius))
    ensures MaxCorner(sensors + [s]) ==
      Position(Max(MaxCorner(sensors).x, s.position.x + s.radius), Max(MaxCorner(sensors).y, s.position.y + s.radius))
  {
    assert (sensors + [s])[..|sensors|] == sensors;
  }

  /** The bounding box holds the origin and every point any sensor senses. */
  lemma {:induction false} CornersEnclose(sensors: seq<Sensor>, i: nat, p: Position)
    requires i < |sensors| && CanSense(sensors[i], p)
    ensures MinCorner(sensors).x <= Min(0, p.x) && Max(0, p.x) <= MaxCorner(sensors).x
    ensures MinCorner(sensors).y <= Min(0, p.y) && Max(0, p.y) <= MaxCorner(sensors).y
    decreases |sensors|
  {
    var init := sensors[..|sensors| - 1];
    if i < |init| {
      assert init[i] == sensors[i];
      CornersEnclose(init, i, p);
    } else {
      OriginInside(init);
    }
  }

  lemma {:induction false} OriginInside(sensors: seq<Sensor>)
    ensures MinCorner(sensors).x <= 0 <= MaxCorner(sensors).x
    ensures MinCorner(sensors).y <= 0 <= MaxCorner(sensors).y
    decreases |sensors|
  {
    if sensors != [] {
      OriginInside(sensors[..|sensors| - 1]);
    }
  }

  /** `Field`: the sensors and the box around what they sense. */
  datatype Field = Field(sensors: seq<Sensor>, minSensing: Position, maxSensing: Position)

  /** The loop body of `Field::from_str` after the push: each corner
   *  coordinate moves out to the sensor's reach when that lies beyond it. */
  method Widen(minSensing: Position, maxSensing: Position, sensor: Sensor) returns (lo: Position, hi: Position)
    ensures lo == Position(Min(minSensing.x, sensor.position.x - sensor.radius), Min(minSensing.y, sensor.position.y - sensor.radius))
    ensures hi == Position(Max(maxSensing.x, sensor.position.x + sensor.radius), Max(maxSensing.y, sensor.position.y + sensor.radius))
  {
    var distance := sensor.radius;
    lo, hi := minSensing, maxSensing;
    if sensor.position.x - distance < lo.x {
      lo := lo.(x := sensor.position.x - distance);
    }
    if sensor.position.y - distance < lo.y {
      lo := lo.(y := sensor.position.y - distance);
    }
    if sensor.position.x + distance > hi.x {
      hi := hi.(x := sensor.position.x + distance);
    }
    if sensor.position.y + distance > hi.y {
      hi := hi.(y := sensor.position.y + distance);
    }
  }

  /** `Field::from_str`: each line's sensor is pushed and the box widened to
   *  its reach. */
  method FromLines(lines: seq<string>) returns (r: Result<Field>)
    ensures ParseAll(lines).Err? ==> r == Err(ParseAll(lines).failure)
    ensures ParseAll(lines).Ok? ==> r.Ok? && r.value.sensors == ParseAll(lines).value
    ensures r.Ok? ==> r.value.minSensing == MinCorner(r.value.sensors)
    ensures r.Ok? ==> r.value.maxSensing == MaxCorner(r.value.sensors)
  {
    var sensors: seq<Sensor> := [];
    var minSensing := Position(0, 0);
    var maxSensing := Position(0, 0);
    assert lines[..0] == [];
    for j := 0 to |lines|
      invariant ParseAll(lines[..j]) == Ok(sensors)
      invariant minSensing == MinCorner(sensors) && maxSensing == MaxCorner(sensors)
    {
      ParseAllNext(lines, j, sensors);
      var parsed := ParseSensor(lines[j]);
      if parsed.Err? {
        ParseAllFails(lines, j + 1);
        return Err(parsed.failure);
      }
      var sensor := parsed.value;
      CornersPush(sensors, sensor);
      sensors := sensors + [sensor];
      minSensing, maxSensing := Widen(minSensing, maxSensing, sensor);
    }
    assert lines[..|lines|] == lines;
    return Ok(Field(sensors, minSensing, maxSensing));
  }

  /** `Field::is_sensed`: the `any` over the sensors. */
  function IsSensed(sensors: seq<Sensor>, target: Position): bool
  {
    sensors != [] && (CanSense(sensors[0], target) || IsSensed(sensors[1..], target))
  }

  lemma {:induction false} IsSensedMeaning(sensors: seq<Sensor>, target: Position)
    ensures IsSensed(sensors, target) <==> exists i :: 0 <= i < |sensors| && CanSense(sensors[i], target)
    decreases |sensors|
  {
    if sensors != [] {
      IsSensedMeaning(sensors[1..], target);
      if exists i :: 0 <= i < |sensors| && CanSense(sensors[i], target) {
        var i :| 0 <= i < |sensors| && CanSense(sensors[i], target);
        if i > 0 {
          assert sensors[1..][i - 1] == sensors[i];
        }
      }
    }
  }

  /** The two cells of row y just outside a sensor's reach. */
  function LeftOf(s: Sensor, y: int): int
  {
    s.position.x - (s.radius - Abs(s.position.y - y)) - 1
  }

  function RightOf(s: Sensor, y: int): int
  {
    s.position.x + (s.radius - Abs(s.position.y - y)) + 1
  }

  /** On a row the sensor reaches, both cells are one step beyond its radius. */
  lemma JustOutside(s: Sensor, y: int)
    requires Abs(s.position.y - y) <= s.radius
    ensures Distance(s.position, Position(LeftOf(s, y), y)) == s.radius + 1
    ensures Distance(s.position, Position(RightOf(s, y), y)) == s.radius + 1
    ensures !CanSense(s, Position(LeftOf(s, y), y)) && !CanSense(s, Position(RightOf(s, y), y))
  {
  }

  /** A candidate `border_search` accepts. */
  predicate Accepts(sensors: seq<Sensor>, limit: int, p: Position)
  {
    0 < p.x < limit && !IsSensed(sensors, p)
  }

  /** Row y holds no accepted candidate of the first `n` sensors. */
  predicate RowRejected(sensors: seq<Sensor>, limit: int, y: int, n: nat)
    requires n <= |sensors|
  {
    forall i :: 0 <= i < n ==>
      !Accepts(sensors, limit, Position(LeftOf(sensors[i], y), y))
      && !Accepts(sensors, limit, Position(RightOf(sensors[i], y), y))
  }

  /** The inner loop of `border_search`: one row, sensor by sensor. */
  method SearchRow(field: Field, limit: int, y: int) returns (r: Option<Position>)
    ensures r.None? ==> RowRejected(field.sensors, limit, y, |field.sensors|)
    ensures r.Some? ==> r.value.y == y && Accepts(field.sensors, limit, r.value)
    ensures r.Some? ==>
      exists i :: 0 <= i < |field.sensors| && r.value.x in {LeftOf(field.sensors[i], y), RightOf(field.sensors[i], y)}
  {
    var sensors := field.sensors;
    for i := 0 to |sensors|
      invariant RowRejected(sensors, limit, y, i)
    {
      var sensor := sensors[i];
      var x1 := LeftOf(sensor, y);
      var x2 := RightOf(sensor, y);
      if x1 > 0 && x1 < limit && !IsSensed(sensors, Position(x1, y)) {
        return Some(Position(x1, y));
      }
      if x2 > 0 && x2 < limit && !IsSensed(sensors, Position(x2, y)) {
        return Some(Position(x2, y));
      }
    }
    return None;
  }

  /** `Field::border_search`: rows 0 to `limit`; the first accepted
   *  candidate is returned. */
  method BorderSearch(field: Field, limit: int) returns (r: Option<Position>)
    ensures r.Some? ==> 0 <= r.value.y <= limit && 0 < r.value.x < limit
    ensures r.Some? ==> !IsSensed(field.sensors, r.value)
    ensures r.Some? ==> forall y :: 0 <= y < r.value.y ==> RowRejected(field.sensors, limit, y, |field.sensors|)
    ensures r.None? ==> forall y :: 0 <= y <= limit ==> RowRejected(field.sensors, limit, y, |field.sensors|)
  {
    if limit < 0 {
      return None;
    }
    var y := 0;
    while y <= limit
      invariant 0 <= y <= limit + 1
      invariant forall y' :: 0 <= y' < y ==> RowRejected(field.sensors, limit, y', |field.sensors|)
    {
      r := SearchRow(field, limit, y);
      if r.Some? {
        return r;
      }
      y := y + 1;
    }
    return None;
  }

  /** A returned position is not sensed by any sensor. */
  lemma FoundIsUnsensed(sensors: seq<Sensor>, limit: int, p: Position)
    requires Accepts(sensors, limit, p)
    ensures forall i :: 0 <= i < |sensors| ==> Distance(sensors[i].position, p) > sensors[i].radius
  {
    IsSensedMeaning(sensors, p);
  }
}
