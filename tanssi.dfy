/** The robot dance rules (robostat/rulesets/tanssi.py): a judge gives
    each named category a small whole number between 0 and the category's
    maximum, one byte on the wire; a score's total is the plain sum, and
    scores compare by total alone. The 2019 interview and performance
    tables fix the categories, listed in name order. */
module Tanssi {
  import opened Common
  import opened Ruleset
  import opened ByteIO
  import PyInt

  // ---------------------------------------------------------------------
  // The 2019 tables, in the order the source lists them

  const InterviewScoring2019: seq<(string, int)> := [
    ("suun_oma", 5), ("suun_vaikeus", 2), ("suun_tasapaino", 2), ("suun_dokumentointi", 3),
    ("ohty_oma", 2), ("ohty_vaikeus", 5), ("ohty_selitys", 2), ("ohty_tjako", 1),
    ("sntk_sensorit", 3),
    ("esip_yleis", 2), ("esip_esiintyminen", 3)
  ]

  const PerformanceScoring2019: seq<(string, int)> := [
    ("ktro_sommittelu", 3), ("ktro_tehosteet", 3), ("ktro_rekvisiitta", 3), ("ktro_osallistuminen", 3),
    ("rkek_sopivuus", 3), ("rkek_vaikeus", 3), ("rkek_liikkuminen", 3),
    ("rstk_alue", 3), ("rstk_toimivuus", 2),
    ("rvsj_vaihtelevuus", 4), ("rvsj_hallinta", 3), ("rvsj_ulkoasu_esitys", 3),
    ("ltvs_toiminta", 2), ("ltvs_aika", 2), ("ltvs_aloitukset", 2), ("ltvs_kosketukset", 3),
    ("hvps_pisteet", 5)
  ]

  function TableMax(table: seq<(string, int)>): int {
    if table == [] then 0 else TableMax(table[..|table| - 1]) + table[|table| - 1].1
  }

  /** The interview maxima add up to 30 points and the performance
      maxima to 50. */
  lemma TableMaxima()
    ensures TableMax(InterviewScoring2019) == 30
    ensures TableMax(PerformanceScoring2019) == 50
  {
    assert TableMax(InterviewScoring2019[..1]) == 5;
    assert InterviewScoring2019[..2][..1] == InterviewScoring2019[..1];
    assert TableMax(InterviewScoring2019[..2]) == 7;
    assert InterviewScoring2019[..3][..2] == InterviewScoring2019[..2];
    assert TableMax(InterviewScoring2019[..3]) == 9;
    assert InterviewScoring2019[..4][..3] == InterviewScoring2019[..3];
    assert TableMax(InterviewScoring2019[..4]) == 12;
    assert InterviewScoring2019[..5][..4] == InterviewScoring2019[..4];
    assert TableMax(InterviewScoring2019[..5]) == 14;
    assert InterviewScoring2019[..6][..5] == InterviewScoring2019[..5];
    assert TableMax(InterviewScoring2019[..6]) == 19;
    assert InterviewScoring2019[..7][..6] == InterviewScoring2019[..6];
    assert TableMax(InterviewScoring2019[..7]) == 21;
    assert InterviewScoring2019[..8][..7] == InterviewScoring2019[..7];
    assert TableMax(InterviewScoring2019[..8]) == 22;
    assert InterviewScoring2019[..9][..8] == InterviewScoring2019[..8];
    assert TableMax(InterviewScoring2019[..9]) == 25;
    assert InterviewScoring2019[..10][..9] == InterviewScoring2019[..9];
    assert TableMax(InterviewScoring2019[..10]) == 27;
    assert InterviewScoring2019[..11][..10] == InterviewScoring2019[..10];
    assert TableMax(InterviewScoring2019[..11]) == 30;
    assert InterviewScoring2019[..11] == InterviewScoring2019;
    assert TableMax(PerformanceScoring2019[..1]) == 3;
    assert PerformanceScoring2019[..2][..1] == PerformanceScoring2019[..1];
    assert TableMax(PerformanceScoring2019[..2]) == 6;
    assert PerformanceScoring2019[..3][..2] == PerformanceScoring2019[..2];
    assert TableMax(PerformanceScoring2019[..3]) == 9;
    assert PerformanceScoring2019[..4][..3] == PerformanceScoring2019[..3];
    assert TableMax(PerformanceScoring2019[..4]) == 12;
    assert PerformanceScoring2019[..5][..4] == PerformanceScoring2019[..4];
    assert TableMax(PerformanceScoring2019[..5]) == 15;
    assert PerformanceScoring2019[..6][..5] == PerformanceScoring2019[..5];
    assert TableMax(PerformanceScoring2019[..6]) == 18;
    assert PerformanceScoring2019[..7][..6] == PerformanceScoring2019[..6];
    assert TableMax(PerformanceScoring2019[..7]) == 21;
    assert PerformanceScoring2019[..8][..7] == PerformanceScoring2019[..7];
    assert TableMax(PerformanceScoring2019[..8]) == 24;
    assert PerformanceScoring2019[..9][..8] == PerformanceScoring2019[..8];
    assert TableMax(PerformanceScoring2019[..9]) == 26;
    assert PerformanceScoring2019[..10][..9] == PerformanceScoring2019[..9];
    assert TableMax(PerformanceScoring2019[..10]) == 30;
    assert PerformanceScoring2019[..11][..10] == PerformanceScoring2019[..10];
    assert TableMax(PerformanceScoring2019[..11]) == 33;
    assert PerformanceScoring2019[..12][..11] == PerformanceScoring2019[..11];
    assert TableMax(PerformanceScoring2019[..12]) == 36;
    assert PerformanceScoring2019[..13][..12] == PerformanceScoring2019[..12];
    assert TableMax(PerformanceScoring2019[..13]) == 38;
    assert PerformanceScoring2019[..14][..13] == PerformanceScoring2019[..13];
    assert TableMax(PerformanceScoring2019[..14]) == 40;
    assert PerformanceScoring2019[..15][..14] == PerformanceScoring2019[..14];
    assert TableMax(PerformanceScoring2019[..15]) == 42;
    assert PerformanceScoring2019[..16][..15] == PerformanceScoring2019[..15];
    assert TableMax(PerformanceScoring2019[..16]) == 45;
    assert PerformanceScoring2019[..17][..16] == PerformanceScoring2019[..16];
    assert TableMax(PerformanceScoring2019[..17]) == 50;
    assert PerformanceScoring2019[..17] == PerformanceScoring2019;
  }

  // ---------------------------------------------------------------------
  // One category

  /** `DanceCategory(max)`. */
  datatype DanceCategory = DanceCategory(max: int)

  /** The value of a category that was never judged. */
  const DanceDefault := 0

  /** `src.read(1)[0]` at cursor `pos`: the next byte and the cursor past
      it; nothing left to read raises IndexError. */
  function DecodeAt(data: seq<byte>, pos: nat): (r: Result<(int, nat), Error>)
    requires pos <= |data|
    ensures r.Failure? <==> pos == |data|
    ensures r.Failure? ==> r.error == IndexError
    ensures r.Success? ==> r.value.1 == pos + 1 && r.value.0 == data[pos] && IsByte(r.value.0)
  {
    if pos < |data| then Success((data[pos], pos + 1)) else Failure(IndexError)
  }

  /** `decode(src)`: consumes one byte of the stream. */
  method Decode(c: DanceCategory, src: ByteStream) returns (r: Result<int, Error>)
    requires src.Valid()
    modifies src`pos
    ensures src.Valid()
    ensures DecodeAt(src.data, old(src.pos)).Success? ==>
      r == Success(DecodeAt(src.data, old(src.pos)).value.0) && src.pos == DecodeAt(src.data, old(src.pos)).value.1
    ensures DecodeAt(src.data, old(src.pos)).Failure? ==> r == Failure(IndexError) && src.pos == old(src.pos)
  {
    var chunk := src.Read(1);
    if |chunk| == 0 {
      r := Failure(IndexError);
    } else {
      r := Success(chunk[0]);
    }
  }

  /** `encode(dest, value)`: appends the value as one byte; a value that
      is not a byte raises ValueError and writes nothing. */
  method Encode(c: DanceCategory, dest: ByteBuffer, value: int) returns (o: Outcome<Error>)
    modifies dest
    ensures IsByte(value) ==> o == Pass && dest.bytes == old(dest.bytes) + [value]
    ensures !IsByte(value) ==> o == Fail(ValueError) && dest.bytes == old(dest.bytes)
  {
    o := dest.Append(value);
  }

  function MsgNegative(value: int): string {
    "Negative score: " + PyInt.Decimal(value)
  }

  function MsgExceedsMax(value: int, max: int): string {
    "Score exceeds max: " + PyInt.Decimal(value) + " > " + PyInt.Decimal(max)
  }

  /** `validate(value)`: a negative value is refused first, then a value
      above the maximum. */
  function Validate(c: DanceCategory, value: int): (r: Validation)
    ensures r.Pass? <==> 0 <= value <= c.max
    ensures value < 0 ==> r == Fail(ValidationError(MsgNegative(value)))
    ensures 0 <= value && c.max < value ==> r == Fail(ValidationError(MsgExceedsMax(value, c.max)))
  {
    if value < 0 then Fail(ValidationError(MsgNegative(value)))
    else if value > c.max then Fail(ValidationError(MsgExceedsMax(value, c.max)))
    else Pass
  }

  // ---------------------------------------------------------------------
  // Category lists, sorted by name

  /** Python's `<` on strings: code point by code point, a proper prefix
      first. */
  predicate StrLess(a: string, b: string): (r: bool)
    ensures |a| < |b| && a == b[..|a|] ==> r
    ensures r ==> a != b
  {
    if a == [] then b != []
    else if b == [] then false
    else if a[0] != b[0] then a[0] < b[0]
    else
      assert |a| < |b| && a == b[..|a|] ==> a[1..] == b[1..][..|a| - 1];
      StrLess(a[1..], b[1..])
  }

  lemma {:induction false} StrLessIrreflexive(a: string)
    ensures !StrLess(a, a)
  {
    if a != [] {
      StrLessIrreflexive(a[1..]);
    }
  }

  lemma {:induction false} StrLessTransitive(a: string, b: string, c: string)
    requires StrLess(a, b) && StrLess(b, c)
    ensures StrLess(a, c)
  {
    if a != [] && a[0] == b[0] && b[0] == c[0] {
      StrLessTransitive(a[1..], b[1..], c[1..]);
    }
  }

  lemma {:induction false} StrLessTotal(a: string, b: string)
    ensures a == b || StrLess(a, b) || StrLess(b, a)
  {
    if a != [] && b != [] && a[0] == b[0] {
      StrLessTotal(a[1..], b[1..]);
      if a[1..] == b[1..] {
        assert a == [a[0]] + a[1..] && b == [b[0]] + b[1..];
      }
    }
  }

  /** Never strictly decreasing in name. */
  predicate SortedByName(cats: seq<(string, DanceCategory)>) {
    forall i, j :: 0 <= i < j < |cats| ==> !StrLess(cats[j].0, cats[i].0)
  }

  function Insert(x: (string, DanceCategory), s: seq<(string, DanceCategory)>): (r: seq<(string, DanceCategory)>)
    requires SortedByName(s)
    ensures SortedByName(r)
    ensures multiset(r) == multiset(s) + multiset{x}
  {
    if s == [] then [x]
    else if StrLess(s[0].0, x.0) then
      var tail := Insert(x, s[1..]);
      InsertHeadSorted(s[0], x, s[1..], tail);
      assert s == [s[0]] + s[1..];
      [s[0]] + tail
    else
      PrependSorted(x, s);
      [x] + s
  }

  /** "Not below" is transitive too. */
  lemma StrNotLessTransitive(a: string, b: string, c: string)
    requires !StrLess(b, a) && !StrLess(c, b)
    ensures !StrLess(c, a)
  {
    if StrLess(c, a) {
      StrLessTotal(a, b);
      if a != b {
        StrLessTransitive(c, a, b);
      }
    }
  }

  lemma PrependSorted(x: (string, DanceCategory), s: seq<(string, DanceCategory)>)
    requires SortedByName(s) && s != [] && !StrLess(s[0].0, x.0)
    ensures SortedByName([x] + s)
  {
    var r := [x] + s;
    forall i, j | 0 <= i < j < |r|
      ensures !StrLess(r[j].0, r[i].0)
    {
      if i == 0 && j > 1 {
        assert !StrLess(s[j - 1].0, s[0].0);
        StrNotLessTransitive(x.0, s[0].0, s[j - 1].0);
      }
    }
  }

  lemma InsertHeadSorted(h: (string, DanceCategory), x: (string, DanceCategory),
                         rest: seq<(string, DanceCategory)>, tail: seq<(string, DanceCategory)>)
    requires SortedByName([h] + rest) && StrLess(h.0, x.0)
    requires SortedByName(tail) && multiset(tail) == multiset(rest) + multiset{x}
    ensures SortedByName([h] + tail)
  {
    var r := [h] + tail;
    forall j | 1 <= j < |r|
      ensures !StrLess(r[j].0, h.0)
    {
      assert r[j] == tail[j - 1];
      assert r[j] in multiset(tail);
      if r[j] == x {
        StrLessIrreflexive(x.0);
        if StrLess(x.0, h.0) {
          StrLessTransitive(x.0, h.0, x.0);
        }
      } else {
        assert r[j] in multiset(rest);
        var k :| 0 <= k < |rest| && rest[k] == r[j];
        var hr := [h] + rest;
        assert hr[k + 1] == rest[k] && hr[0] == h;
        assert !StrLess(hr[k + 1].0, hr[0].0);
      }
    }
  }

  /** `sorted(...)` over the (name, category) pairs. */
  function SortByName(cats: seq<(string, DanceCategory)>): (r: seq<(string, DanceCategory)>)
    ensures SortedByName(r)
    ensures multiset(r) == multiset(cats)
  {
    if cats == [] then []
    else
      assert cats == cats[..|cats| - 1] + [cats[|cats| - 1]];
      Insert(cats[|cats| - 1], SortByName(cats[..|cats| - 1]))
  }

  function Categories(table: seq<(string, int)>): (cats: seq<(string, DanceCategory)>)
    ensures |cats| == |table|
    ensures forall i :: 0 <= i < |table| ==> cats[i] == (table[i].0, DanceCategory(table[i].1))
  {
    seq(|table|, i requires 0 <= i < |table| => (table[i].0, DanceCategory(table[i].1)))
  }

  /** `_get_cats(table)`: the table's categories in name order. */
  function GetCats(table: seq<(string, int)>): (cats: seq<(string, DanceCategory)>)
    ensures SortedByName(cats)
    ensures multiset(cats) == multiset(Categories(table))
  {
    SortByName(Categories(table))
  }

  // ---------------------------------------------------------------------
  // Whole scores

  /** The most points a category list allows. */
  function MaxPoints(cats: seq<(string, DanceCategory)>): int {
    if cats == [] then 0 else MaxPoints(cats[..|cats| - 1]) + cats[|cats| - 1].1.max
  }

  lemma {:induction false} MaxPointsConcat(a: seq<(string, DanceCategory)>, b: seq<(string, DanceCategory)>)
    ensures MaxPoints(a + b) == MaxPoints(a) + MaxPoints(b)
    decreases |b|
  {
    if b == [] {
      assert a + b == a;
    } else {
      assert (a + b)[..|a + b| - 1] == a + b[..|b| - 1];
      MaxPointsConcat(a, b[..|b| - 1]);
    }
  }

  lemma {:induction false} MaxPointsInsert(x: (string, DanceCategory), s: seq<(string, DanceCategory)>)
    requires SortedByName(s)
    ensures MaxPoints(Insert(x, s)) == MaxPoints(s) + x.1.max
    decreases |s|
  {
    if s == [] {
      assert MaxPoints([x]) == MaxPoints([]) + x.1.max;
    } else if StrLess(s[0].0, x.0) {
      MaxPointsInsert(x, s[1..]);
      assert s == [s[0]] + s[1..];
      MaxPointsConcat([s[0]], s[1..]);
      MaxPointsConcat([s[0]], Insert(x, s[1..]));
      assert MaxPoints([s[0]]) == s[0].1.max;
    } else {
      MaxPointsConcat([x], s);
      assert MaxPoints([x]) == x.1.max;
    }
  }

  /** Sorting neither adds nor drops points. */
  lemma {:induction false} MaxPointsSorted(cats: seq<(string, DanceCategory)>)
    ensures MaxPoints(SortByName(cats)) == MaxPoints(cats)
    decreases |cats|
  {
    if cats != [] {
      MaxPointsSorted(cats[..|cats| - 1]);
      MaxPointsInsert(cats[|cats| - 1], SortByName(cats[..|cats| - 1]));
    }
  }

  lemma {:induction false} MaxPointsOfTable(table: seq<(string, int)>)
    ensures MaxPoints(Categories(table)) == TableMax(table)
    decreases |table|
  {
    if table != [] {
      var n := |table| - 1;
      assert Categories(table)[..n] == Categories(table[..n]);
      MaxPointsOfTable(table[..n]);
    }
  }

  /** A score of a class: one value per category of its list. */
  datatype DanceScore = DanceScore(cats: seq<(string, DanceCategory)>, values: seq<int>) {
    predicate Valid() {
      |values| == |cats|
    }
  }

  /** A freshly created score: every category at its default. */
  function Blank(cats: seq<(string, DanceCategory)>): (s: DanceScore)
    ensures s.Valid() && s.cats == cats
    ensures forall i :: 0 <= i < |cats| ==> s.values[i] == DanceDefault
  {
    DanceScore(cats, seq(|cats|, _ => DanceDefault))
  }

  /** `int(score)`: the sum of all category values. */
  function Total(s: DanceScore): int {
    Sum(s.values)
  }

  lemma {:induction false} SumOfZeros(n: nat)
    ensures Sum(seq(n, _ => 0)) == 0
  {
    if n > 0 {
      assert seq(n, _ => 0)[..n - 1] == seq(n - 1, _ => 0);
      SumOfZeros(n - 1);
    }
  }

  /** A blank score totals 0. */
  lemma BlankTotal(cats: seq<(string, DanceCategory)>)
    ensures Total(Blank(cats)) == 0
  {
    SumOfZeros(|cats|);
  }

  /** Setting one category changes the total by exactly the change in
      that category. */
  lemma {:induction false} TotalOfUpdate(values: seq<int>, k: nat, v: int)
    requires k < |values|
    ensures Sum(values[k := v]) == Sum(values) - values[k] + v
    decreases |values|
  {
    var n := |values| - 1;
    if k < n {
      assert values[k := v][..n] == values[..n][k := v];
      TotalOfUpdate(values[..n], k, v);
    } else {
      assert values[k := v][..n] == values[..n];
    }
  }

  /** Every category value passes its category's validation. */
  predicate AllValid(s: DanceScore)
    requires s.Valid()
  {
    forall i :: 0 <= i < |s.cats| ==> Validate(s.cats[i].1, s.values[i]).Pass?
  }

  lemma {:induction false} BoundedSum(cats: seq<(string, DanceCategory)>, values: seq<int>)
    requires |values| == |cats|
    requires forall i :: 0 <= i < |cats| ==> 0 <= values[i] <= cats[i].1.max
    ensures 0 <= Sum(values) <= MaxPoints(cats)
    decreases |cats|
  {
    if cats != [] {
      var n := |cats| - 1;
      BoundedSum(cats[..n], values[..n]);
    }
  }

  /** A valid score totals between 0 and its categories' maximum. */
  lemma ValidTotalBounded(s: DanceScore)
    requires s.Valid() && AllValid(s)
    ensures 0 <= Total(s) <= MaxPoints(s.cats)
  {
    BoundedSum(s.cats, s.values);
  }

  /** A valid 2019 interview score totals at most 30, a performance score
      at most 50. */
  lemma Valid2019TotalsBounded(s: DanceScore)
    requires s.Valid() && AllValid(s)
    ensures s.cats == GetCats(InterviewScoring2019) ==> Total(s) <= 30
    ensures s.cats == GetCats(PerformanceScoring2019) ==> Total(s) <= 50
  {
    ValidTotalBounded(s);
    TableMaxima();
    MaxPointsSorted(Categories(InterviewScoring2019));
    MaxPointsOfTable(InterviewScoring2019);
    MaxPointsSorted(Categories(PerformanceScoring2019));
    MaxPointsOfTable(PerformanceScoring2019);
  }

  /** `__eq__`: equal totals, which is exactly "neither is less". */
  predicate Eq(a: DanceScore, b: DanceScore): (r: bool)
    ensures r <==> !Less(a, b) && !Less(b, a)
  {
    Total(a) == Total(b)
  }

  /** `__lt__`: a smaller total. */
  predicate Less(a: DanceScore, b: DanceScore) {
    Total(a) < Total(b)
  }

  /** Exactly one of `a < b`, `a == b`, `b < a` holds, whatever the
      category values behind the totals. */
  lemma OrderingByTotal(a: DanceScore, b: DanceScore, c: DanceScore)
    ensures Less(a, b) && Less(b, c) ==> Less(a, c)
    ensures !Less(a, a)
  {
  }

  // ---------------------------------------------------------------------
  // The categories on the wire, one byte each in list order

  /** Reading `n` categories one byte each from `pos`. */
  function DecodeValues(data: seq<byte>, pos: nat, n: nat): (r: Result<seq<int>, Error>)
    requires pos <= |data|
    ensures r.Success? ==> |r.value| == n
    decreases n
  {
    if n == 0 then Success([])
    else
      match DecodeAt(data, pos)
      case Failure(e) => Failure(e)
      case Success((v, next)) =>
        match DecodeValues(data, next, n - 1)
        case Failure(e) => Failure(e)
        case Success(vs) => Success([v] + vs)
  }

  lemma {:induction false} DecodeValuesOfBytes(values: seq<byte>, data: seq<byte>, pos: nat)
    requires pos + |values| <= |data| && data[pos..pos + |values|] == values
    ensures DecodeValues(data, pos, |values|) == Success(values)
    decreases |values|
  {
    if values != [] {
      assert data[pos + 1..pos + 1 + |values[1..]|] == values[1..];
      DecodeValuesOfBytes(values[1..], data, pos + 1);
      assert values == [values[0]] + values[1..];
    }
  }

  /** Valid values of categories whose maxima fit a byte are bytes, and
      writing them one byte each and reading them back gives them again,
      whatever follows. */
  lemma ValuesRoundTrip(s: DanceScore, rest: seq<byte>)
    requires s.Valid() && AllValid(s)
    requires forall i :: 0 <= i < |s.cats| ==> s.cats[i].1.max < 256
    ensures forall i :: 0 <= i < |s.values| ==> IsByte(s.values[i])
    ensures var bytes := seq(|s.values|, i requires 0 <= i < |s.values| => s.values[i] as byte);
      DecodeValues(bytes + rest, 0, |s.cats|) == Success(s.values)
  {
    var bytes := seq(|s.values|, i requires 0 <= i < |s.values| => s.values[i] as byte);
    assert (bytes + rest)[0..|bytes|] == bytes;
    DecodeValuesOfBytes(bytes, bytes + rest, 0);
    assert bytes == s.values;
  }

  // ---------------------------------------------------------------------
  // Selecting the rules by revision

  /** `get_dance_rulesets(rev)`: the interview and performance category
      lists of revision 2019; any other revision, or text that is not an
      integer, raises ValueError. */
  function GetDanceRulesets(rev: string): (r: Result<(seq<(string, DanceCategory)>, seq<(string, DanceCategory)>), Error>)
    ensures r.Success? <==> PyInt.ParseInt(rev) == Some(2019)
    ensures r.Failure? ==> r.error == ValueError
    ensures r.Success? ==> r.value == (GetCats(InterviewScoring2019), GetCats(PerformanceScoring2019))
  {
    match PyInt.ParseInt(rev)
    case Some(n) =>
      if n == 2019 then Success((GetCats(InterviewScoring2019), GetCats(PerformanceScoring2019)))
      else Failure(ValueError)
    case None => Failure(ValueError)
  }

  /** The revision "2019" selects the 2019 tables. */
  lemma Revision2019Accepted()
    ensures GetDanceRulesets("2019").Success?
  {
    PyInt.ParseYear("2019", 2019);
  }
}
