/** The ultrasound depth sensor and the scorer that turns its reading into a
    `Score` weight: far readings score low, near readings score high. */
module DepthSensor {
  import opened Ecs

  /** Metres; `f32` readings are modelled as reals. */
  const DEFAULT_ULTRASOUND_MAX_DEPTH: real := 2.0

  datatype Vec3 = Vec3(x: real, y: real, z: real)

  function Add(a: Vec3, b: Vec3): Vec3
  {
    Vec3(a.x + b.x, a.y + b.y, a.z + b.z)
  }

  datatype Sensor = Sensor(value: real, maxDepth: real, size: Vec3, pos: Vec3)

  /** `DepthSensor::new`: the reading starts at the maximum depth, the housing
      is 2 x 2 x 4 cm and sits half its height above the given offset. */
  function NewSensor(offset: Vec3): (s: Sensor)
    ensures s.value == s.maxDepth == DEFAULT_ULTRASOUND_MAX_DEPTH
    ensures s.size == Vec3(0.02, 0.02, 0.04)
    ensures s.pos == Vec3(offset.x, offset.y + 0.01, offset.z)
  {
    var size := Vec3(0.02, 0.02, 0.04);
    var pos := Add(offset, Vec3(0.0, size.y * 0.5, 0.0));
    var maxDepth := DEFAULT_ULTRASOUND_MAX_DEPTH;
    Sensor(maxDepth, maxDepth, size, pos)
  }

  newtype u8 = x: int | 0 <= x < 256

  datatype Score = Fail | Weight(weight: u8)

  datatype Scorer = Scorer(score: Score, thresholdDist: real, lowWeight: u8, highWeight: u8)

  /** `DepthSensorScorer::default`. */
  function DefaultScorer(): (sc: Scorer)
    ensures sc.score == Fail && sc.thresholdDist == 0.5
    ensures sc.lowWeight == 40 && sc.highWeight == 60
  {
    Scorer(Fail, 0.5, 40, 60)
  }

  /** `DepthSensorScorer::new`: the given parameters, not yet scored. */
  function NewScorer(thresholdDist: real, lowWeight: u8, highWeight: u8): (sc: Scorer)
    ensures sc.score == Fail
    ensures sc.thresholdDist == thresholdDist && sc.lowWeight == lowWeight && sc.highWeight == highWeight
  {
    Scorer(Fail, thresholdDist, lowWeight, highWeight)
  }

  /** The score a reading earns: beyond the threshold the low weight, at or
      within it the high weight; a reading never makes the scorer fail. */
  function NextScore(sc: Scorer, value: real): (r: Score)
    ensures r.Weight?
    ensures value > sc.thresholdDist ==> r.weight == sc.lowWeight
    ensures value <= sc.thresholdDist ==> r.weight == sc.highWeight
  {
    if value > sc.thresholdDist then Weight(sc.lowWeight) else Weight(sc.highWeight)
  }

  /** The scorer after one reading, and whether it was written to (which is
      what marks it changed for later systems). */
  function Rescore(sc: Scorer, value: real): (r: (Scorer, bool))
    ensures r.0.score == NextScore(sc, value)
    ensures r.1 <==> NextScore(sc, value) != sc.score
    ensures !r.1 ==> r.0 == sc
    ensures r.0.thresholdDist == sc.thresholdDist && r.0.lowWeight == sc.lowWeight && r.0.highWeight == sc.highWeight
  {
    var next := NextScore(sc, value);
    if next != sc.score then (sc.(score := next), true) else (sc, false)
  }

  /** Rescoring with the same reading a second time writes nothing. */
  lemma RescoreIdempotent(sc: Scorer, value: real)
    ensures Rescore(Rescore(sc, value).0, value) == (Rescore(sc, value).0, false)
  {
  }

  /** The components the system reads and writes. `changed` holds the sensors
      changed since the system last ran; `written` the scorers it wrote. */
  datatype State = State(
    sensors: map<Entity, Sensor>,
    changed: set<Entity>,
    scorers: map<Entity, Scorer>,
    target: map<Entity, Entity>,
    written: set<Entity>)

  /** The scorer `e` has a target whose sensor exists and changed. */
  predicate Reads(s: State, e: Entity)
  {
    e in s.scorers && e in s.target && s.target[e] in s.sensors && s.target[e] in s.changed
  }

  function Step(s: State, e: Entity): State
  {
    if Reads(s, e) then
      var r := Rescore(s.scorers[e], s.sensors[s.target[e]].value);
      if r.1 then s.(scorers := s.scorers[e := r.0], written := s.written + {e}) else s
    else s
  }

  /** `depth_sensor_scorer`, visiting the scorer query in `order`. */
  function ScoreAll(s: State, order: seq<Entity>): State
    decreases |order|
  {
    if order == [] then s else Step(ScoreAll(s, order[..|order| - 1]), order[|order| - 1])
  }

  /** After the system, each scorer that reads a changed sensor holds the
      score of that reading and every other scorer is untouched; a scorer is
      marked written exactly when its score really changed; the sensors and
      targets stay as they were. Visiting a scorer twice is harmless. */
  lemma {:induction false} ScoreAllEffect(s: State, order: seq<Entity>)
    ensures var r := ScoreAll(s, order);
      && r.sensors == s.sensors && r.changed == s.changed && r.target == s.target
      && r.scorers.Keys == s.scorers.Keys
      && (forall x :: x in s.scorers ==>
            r.scorers[x] == if x in order && Reads(s, x)
                            then Rescore(s.scorers[x], s.sensors[s.target[x]].value).0
                            else s.scorers[x])
      && (forall x :: x in r.written <==>
            x in s.written || (x in order && Reads(s, x) && Rescore(s.scorers[x], s.sensors[s.target[x]].value).1))
    decreases |order|
  {
    if order != [] {
      var init := order[..|order| - 1];
      var e := order[|order| - 1];
      ScoreAllEffect(s, init);
      if e in s.scorers && Reads(s, e) {
        RescoreIdempotent(s.scorers[e], s.sensors[s.target[e]].value);
      }
      assert forall x :: x in order <==> x in init || x == e;
    }
  }

  /** Running the system twice on the same readings is running it once. */
  lemma {:induction false} ScoreAllTwice(s: State, order: seq<Entity>)
    ensures ScoreAll(ScoreAll(s, order), order) == ScoreAll(s, order)
  {
    var r := ScoreAll(s, order);
    ScoreAllEffect(s, order);
    ScoreAllEffect(r, order);
    var rr := ScoreAll(r, order);
    forall x | x in r.scorers
      ensures rr.scorers[x] == r.scorers[x]
    {
      if x in order && Reads(r, x) {
        RescoreIdempotent(s.scorers[x], s.sensors[s.target[x]].value);
      }
    }
    assert rr.scorers == r.scorers;
    assert rr.written == r.written;
  }

  /** The sensors and scorers, updated in place. */
  class ScorerWorld {
    var sensors: map<Entity, Sensor>
    var changed: set<Entity>
    var scorers: map<Entity, Scorer>
    var target: map<Entity, Entity>
    var written: set<Entity>

    function Model(): State
      reads this
    {
      State(sensors, changed, scorers, target, written)
    }

    method DepthSensorScorer(order: seq<Entity>)
      modifies this
      ensures Model() == ScoreAll(old(Model()), order)
    {
      var i := 0;
      while i < |order|
        invariant 0 <= i <= |order|
        invariant Model() == ScoreAll(old(Model()), order[..i])
      {
        assert order[..i + 1][..i] == order[..i];
        var e := order[i];
        if e in scorers && e in target && target[e] in sensors && target[e] in changed {
          var scorer := scorers[e];
          var sensor := sensors[target[e]];
          var nextScore := if sensor.value > scorer.thresholdDist then Weight(scorer.lowWeight) else Weight(scorer.highWeight);
          if nextScore != scorer.score {
            scorers := scorers[e := scorer.(score := nextScore)];
            written := written + {e};
          }
        }
        i := i + 1;
      }
      assert order[..i] == order;
    }
  }
}
