/** The rescue course rules (robostat/rulesets/rescue.py): each obstacle is
    judged FAIL, SUCCESS_2 (made it on the second try) or SUCCESS_1 (made
    it on the first try) and scores half or all of its weight; repeatable
    obstacles hold a list of such judgements. A score is the time taken
    plus one field per obstacle of its difficulty tier; its total counts
    the obstacles only, and scores order by total, then by time. */
module Rescue {
  import opened Common
  import opened Ruleset
  import PyInt
  import ByteIO

  // ---------------------------------------------------------------------
  // Constant tables

  /** Points for an obstacle passed on the first try. */
  const Weights: map<string, int> := map[
    "viiva_punainen" := 20,
    "viiva_palat" := 10,
    "viiva_kippi" := 10,
    "viiva_maki" := 10,
    "viiva_kulma" := 10,
    "viiva_hidasteet" := 10,
    "viiva_risteys" := 10,
    "viiva_katkos" := 10,
    "viiva_este" := 10,
    "uhri_alue" := 10,
    "uhri_tunnistus" := 10,
    "uhri_nosto" := 10,
    "uhri_koroke" := 10,
    "uhri_tarttuminen" := 10,
    "uhri_ulos" := 10,
    "uhri_pelastus" := 20,
    "uhri_peruutus" := 10
  ]

  /** Obstacles that occur several times on a course. */
  const Repeat: set<string> := {
    "viiva_palat", "viiva_kippi", "viiva_maki", "viiva_kulma",
    "viiva_hidasteet", "viiva_risteys", "viiva_katkos", "viiva_este"
  }

  const R1Viiva: seq<string> := ["viiva_punainen", "viiva_palat", "viiva_kippi"]
  const R1Uhri: seq<string> := ["uhri_alue", "uhri_tunnistus", "uhri_ulos", "uhri_peruutus"]
  const R2Viiva: seq<string> := R1Viiva + ["viiva_maki", "viiva_kulma", "viiva_hidasteet", "viiva_risteys"]
  const R2Uhri: seq<string> := R1Uhri + ["uhri_tarttuminen"]
  const R3Viiva: seq<string> := R2Viiva + ["viiva_katkos", "viiva_este"]
  const R3Uhri: seq<string> := [
    "uhri_alue", "uhri_tunnistus", "uhri_nosto", "uhri_koroke", "uhri_pelastus", "uhri_peruutus"
  ]

  /** The three judgements of an obstacle attempt. */
  const FAIL := 0
  const SUCCESS_2 := 1
  const SUCCESS_1 := 2

  // ---------------------------------------------------------------------
  // One obstacle

  /** `RescueObstacleCategory(max, retryable)`. */
  datatype ObstacleCategory = ObstacleCategory(max: int, retryable: bool)

  /** The value of an obstacle field that was never judged. */
  const ObstacleDefault := FAIL

  /** `score(val)`: `(val * max) // 2`, Python's floor division. */
  function ObstacleScore(c: ObstacleCategory, val: int): (p: int)
    ensures 2 * p <= val * c.max < 2 * p + 2
    ensures val == FAIL ==> p == 0
    ensures val == SUCCESS_2 ==> p == c.max / 2
    ensures val == SUCCESS_1 ==> p == c.max
  {
    (val * c.max) / 2
  }

  /** `decode(data)`: the first byte is the value and one byte is used;
      empty data raises IndexError. */
  function ObstacleDecode(data: seq<byte>): (r: Result<(int, nat), Error>)
    ensures r.Failure? <==> data == []
    ensures r.Failure? ==> r.error == IndexError
    ensures r.Success? ==> r.value.1 == 1 && r.value.0 == data[0] && IsByte(r.value.0)
  {
    if data == [] then Failure(IndexError) else Success((data[0], 1))
  }

  /** `encode(dest, value)`: appends the value as one byte; a value that
      is not a byte raises ValueError and writes nothing. */
  method ObstacleEncode(c: ObstacleCategory, dest: ByteIO.ByteBuffer, value: int) returns (o: Outcome<Error>)
    modifies dest
    ensures IsByte(value) ==> o == Pass && dest.bytes == old(dest.bytes) + [value]
    ensures !IsByte(value) ==> o == Fail(ValueError) && dest.bytes == old(dest.bytes)
  {
    o := dest.Append(value);
  }

  /** Every byte value survives an encode followed by a decode, whatever
      follows it, and exactly the one written byte is consumed. */
  lemma ObstacleRoundTrip(value: byte, rest: seq<byte>)
    ensures ObstacleDecode([value] + rest) == Success((value as int, 1))
  {
  }

  const MsgNotRetryable := "Unexpected SUCCESS_2 in non-retryable category"

  function MsgRetryValue(value: int): string {
    "Unexpected retry value: " + PyInt.Decimal(value)
  }

  /** `validate(value)`: SUCCESS_2 is checked against the retryable flag
      first, then anything but FAIL and SUCCESS_1 is refused. */
  function ObstacleValidate(c: ObstacleCategory, value: int): (r: Validation)
    ensures r.Pass? <==> value == FAIL || value == SUCCESS_1
    ensures value == SUCCESS_2 && !c.retryable ==> r == Fail(ValidationError(MsgNotRetryable))
    ensures r.Fail? && (value != SUCCESS_2 || c.retryable) ==> r == Fail(ValidationError(MsgRetryValue(value)))
  {
    if value == SUCCESS_2 && !c.retryable then
      Fail(ValidationError(MsgNotRetryable))
    else if value != FAIL && value != SUCCESS_1 then
      Fail(ValidationError(MsgRetryValue(value)))
    else
      Pass
  }

  /** A value that passes validation scores either nothing or the full
      weight; half points never reach a validated score. */
  lemma ValidatedObstacleScore(c: ObstacleCategory, value: int)
    requires ObstacleValidate(c, value).Pass?
    ensures ObstacleScore(c, value) == 0 || ObstacleScore(c, value) == c.max
  {
  }

  // ---------------------------------------------------------------------
  // A repeatable obstacle

  predicate IsJudgement(v: int) {
    v == FAIL || v == SUCCESS_2 || v == SUCCESS_1
  }

  /** `RescueListCategory.score(val)`: the sum of the item scores. */
  function ListScore(item: ObstacleCategory, vals: seq<int>): (p: int)
    ensures vals == [] ==> p == 0
    ensures 0 <= item.max && (forall i :: 0 <= i < |vals| ==> IsJudgement(vals[i])) ==>
      0 <= p <= |vals| * item.max
  {
    if vals == [] then 0
    else ListScore(item, vals[..|vals| - 1]) + ObstacleScore(item, vals[|vals| - 1])
  }

  lemma {:induction false} ListScoreConcat(item: ObstacleCategory, a: seq<int>, b: seq<int>)
    ensures ListScore(item, a + b) == ListScore(item, a) + ListScore(item, b)
    decreases |b|
  {
    if b == [] {
      assert a + b == a;
    } else {
      assert (a + b)[..|a + b| - 1] == a + b[..|b| - 1];
      ListScoreConcat(item, a, b[..|b| - 1]);
    }
  }

  // ---------------------------------------------------------------------
  // Score shapes

  /** The kinds of field a rescue score has: the unsigned time, a single
      obstacle, or a repeatable obstacle. Only the last two are rescue
      categories that carry points. */
  datatype Category = Time | Obstacle(ob: ObstacleCategory) | Repeated(item: ObstacleCategory) {
    predicate Scored() {
      !Time?
    }
  }

  /** The ordered (name, category) fields of a score class. */
  type Shape = seq<(string, Category)>

  /** `make_cat(c, w)`: a repeatable obstacle becomes a list of them. */
  function MakeCat(name: string, w: int): (c: Category)
    ensures c.Scored()
    ensures c.Repeated? <==> name in Repeat
    ensures c.Obstacle? ==> c.ob == ObstacleCategory(w, true)
    ensures c.Repeated? ==> c.item == ObstacleCategory(w, true)
  {
    var ob := ObstacleCategory(w, true);
    if name in Repeat then Repeated(ob) else Obstacle(ob)
  }

  /** `CATS[name]`: the category of a weighted obstacle, scored with its
      weight and allowing retries; a list exactly for the REPEAT names. */
  function CatOf(name: string): (c: Category)
    requires name in Weights
    ensures c.Repeated? <==> name in Repeat
    ensures c.Obstacle? || c.Repeated?
    ensures c.Obstacle? ==> c.ob == ObstacleCategory(Weights[name], true)
    ensures c.Repeated? ==> c.item == ObstacleCategory(Weights[name], true)
  {
    MakeCat(name, Weights[name])
  }

  /** `_get_cats(l)`: the time field, then each named obstacle in order;
      a name without a weight raises KeyError. */
  function GetCats(names: seq<string>): (r: Result<Shape, Error>)
    ensures r.Success? <==> forall i :: 0 <= i < |names| ==> names[i] in Weights
    ensures r.Failure? ==> r.error == KeyError
    ensures r.Success? ==>
      && |r.value| == |names| + 1
      && r.value[0] == ("time", Time)
      && forall i :: 0 <= i < |names| ==> r.value[i + 1] == (names[i], CatOf(names[i]))
  {
    if forall i :: 0 <= i < |names| ==> names[i] in Weights then
      Success([("time", Time)] + seq(|names|, i requires 0 <= i < |names| => (names[i], CatOf(names[i]))))
    else
      Failure(KeyError)
  }

  /** `RESCUE1_CATS` and the two tiers above it: every listed obstacle has
      a weight, so each shape builds, with 8, 13 and 16 fields. */
  function Rescue1Shape(): (r: Result<Shape, Error>)
    ensures r.Success? && TierShape(r.value, R1Viiva + R1Uhri) && |r.value| == 8
  {
    var names := R1Viiva + R1Uhri;
    assert forall i :: 0 <= i < |names| ==> names[i] in Weights;
    GetCatsTierShape(names);
    GetCats(names)
  }

  function Rescue2Shape(): (r: Result<Shape, Error>)
    ensures r.Success? && TierShape(r.value, R2Viiva + R2Uhri) && |r.value| == 13
  {
    var names := R2Viiva + R2Uhri;
    assert forall i :: 0 <= i < |names| ==> names[i] in Weights;
    GetCatsTierShape(names);
    GetCats(names)
  }

  function Rescue3Shape(): (r: Result<Shape, Error>)
    ensures r.Success? && TierShape(r.value, R3Viiva + R3Uhri) && |r.value| == 16
  {
    var names := R3Viiva + R3Uhri;
    assert forall i :: 0 <= i < |names| ==> names[i] in Weights;
    GetCatsTierShape(names);
    GetCats(names)
  }

  /** Each tier's line-following obstacles extend those of the tier below. */
  lemma TierViivaPrefixes()
    ensures |R1Viiva| <= |R2Viiva| && R2Viiva[..|R1Viiva|] == R1Viiva
    ensures |R2Viiva| <= |R3Viiva| && R3Viiva[..|R2Viiva|] == R2Viiva
  {
  }

  /** A tier shape is the time, then its names, each a list category
      exactly when the obstacle repeats and otherwise a single obstacle
      worth its weight. */
  predicate TierShape(shape: Shape, names: seq<string>) {
    && |shape| == |names| + 1
    && shape[0] == ("time", Time)
    && forall i :: 0 <= i < |names| ==>
         && names[i] in Weights
         && shape[i + 1].0 == names[i]
         && (shape[i + 1].1.Repeated? <==> names[i] in Repeat)
         && (shape[i + 1].1.Scored())
  }

  lemma GetCatsTierShape(names: seq<string>)
    requires GetCats(names).Success?
    ensures TierShape(GetCats(names).value, names)
  {
  }

  // ---------------------------------------------------------------------
  // Whole scores

  /** A field value: one judgement (or the time), or a list of judgements. */
  datatype Value = Int(n: int) | Ints(ns: seq<int>)

  predicate ValueFits(c: Category, v: Value) {
    if c.Repeated? then v.Ints? else v.Int?
  }

  predicate ValuesFit(shape: Shape, values: seq<Value>) {
    |values| == |shape| && forall i :: 0 <= i < |shape| ==> ValueFits(shape[i].1, values[i])
  }

  /** An instance of a score class: one value per field of its shape, the
      time first. */
  datatype RescueScore = RescueScore(shape: Shape, values: seq<Value>) {
    predicate Valid() {
      && ValuesFit(shape, values)
      && |shape| >= 1
      && shape[0] == ("time", Time)
    }

    function TimeValue(): int
      requires Valid()
    {
      values[0].n
    }
  }

  /** What one field adds to the total: nothing for the time, and for a
      judged obstacle between nothing and its weight. */
  function FieldPoints(c: Category, v: Value): (p: int)
    requires ValueFits(c, v)
    ensures c.Time? ==> p == 0
    ensures c.Obstacle? && 0 <= c.ob.max && IsJudgement(v.n) ==> 0 <= p <= c.ob.max
  {
    match c
    case Time => 0
    case Obstacle(ob) => ObstacleScore(ob, v.n)
    case Repeated(item) => ListScore(item, v.ns)
  }

  function Points(shape: Shape, values: seq<Value>): int
    requires ValuesFit(shape, values)
  {
    if shape == [] then 0
    else
      Points(shape[..|shape| - 1], values[..|values| - 1])
      + FieldPoints(shape[|shape| - 1].1, values[|values| - 1])
  }

  /** `int(score)`: the points of every rescue-category field. */
  function Total(s: RescueScore): int
    requires s.Valid()
  {
    Points(s.shape, s.values)
  }

  /** Replacing the value of a time field leaves the points unchanged. */
  lemma {:induction false} PointsIgnoreTime(shape: Shape, values: seq<Value>, k: nat, t: int)
    requires ValuesFit(shape, values) && k < |shape| && shape[k].1 == Time
    ensures ValuesFit(shape, values[k := Int(t)])
    ensures Points(shape, values[k := Int(t)]) == Points(shape, values)
    decreases |shape|
  {
    var values' := values[k := Int(t)];
    assert ValuesFit(shape, values');
    var n := |shape| - 1;
    if k < n {
      assert values'[..n] == values[..n][k := Int(t)];
      PointsIgnoreTime(shape[..n], values[..n], k, t);
    } else {
      assert values'[..n] == values[..n];
    }
  }

  /** The time never contributes points: two scores that differ only in
      their time have the same total. */
  lemma TimeNeverCounts(s: RescueScore, t: int)
    requires s.Valid()
    ensures s.(values := s.values[0 := Int(t)]).Valid()
    ensures Total(s.(values := s.values[0 := Int(t)])) == Total(s)
  {
    PointsIgnoreTime(s.shape, s.values, 0, t);
  }

  /** `time_min`: whole minutes, Python's floor division by 60. */
  function TimeMin(time: int): (m: int)
    ensures m * 60 <= time < m * 60 + 60
  {
    time / 60
  }

  /** `time_sec`: the remaining seconds; minutes and seconds give back
      the time. */
  function TimeSec(time: int): (sec: int)
    ensures 0 <= sec < 60
    ensures TimeMin(time) * 60 + sec == time
  {
    time % 60
  }

  /** `__lt__`: a smaller total is less; on equal totals the smaller
      time is less. */
  predicate Less(a: RescueScore, b: RescueScore)
    requires a.Valid() && b.Valid()
  {
    if Total(a) != Total(b) then Total(a) < Total(b) else a.TimeValue() < b.TimeValue()
  }

  /** `__eq__`: equal totals and equal times, which is exactly "neither
      is less". */
  predicate Eq(a: RescueScore, b: RescueScore): (r: bool)
    requires a.Valid() && b.Valid()
    ensures r <==> !Less(a, b) && !Less(b, a)
  {
    Total(a) == Total(b) && a.TimeValue() == b.TimeValue()
  }

  /** The ordering is total and consistent with `__eq__`: of `a < b`,
      `a == b` and `b < a` exactly one holds, and `<` is transitive. */
  lemma OrderingIsTotal(a: RescueScore, b: RescueScore, c: RescueScore)
    requires a.Valid() && b.Valid() && c.Valid()
    ensures !Less(a, a)
    ensures Eq(a, b) <==> !Less(a, b) && !Less(b, a)
    ensures !(Less(a, b) && Less(b, a))
    ensures Less(a, b) && Less(b, c) ==> Less(a, c)
    ensures Eq(a, b) && Eq(b, c) ==> Eq(a, c)
  {
  }

  /** Between equal totals the slower score is the greater one. */
  lemma SlowerIsGreater(a: RescueScore, b: RescueScore)
    requires a.Valid() && b.Valid()
    requires Total(a) == Total(b) && a.TimeValue() < b.TimeValue()
    ensures Less(a, b) && !Eq(a, b)
  {
  }
}
