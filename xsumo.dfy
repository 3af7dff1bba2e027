/** Head-to-head match scoring (robostat/rulesets/xsumo.py). A match score
    is one competitor's side: the stated match result and a list of rounds.
    Two round formats exist: XS rounds ("reached the arena first" plus a
    round result) and XM rounds (a list of pseudo-round points). */
module XSumo {
  import opened Common
  import opened ByteIO
  import opened Ruleset
  import PyInt

  /** A match or round result; its wire code is the ASCII letter. */
  datatype XSumoResult = Lose | Tie | Win {
    function Char(): char {
      match this
      case Lose => 'L'
      case Tie => 'T'
      case Win => 'W'
    }

    function Opcode(): (b: byte)
      ensures b == Char() as int
    {
      Char() as int
    }

    /** The other competitor's view of the same outcome: a tie stays a
        tie, and any other result flips. */
    function Opposite(): XSumoResult {
      match this
      case Lose => Win
      case Tie => Tie
      case Win => Lose
    }
  }

  lemma OppositeIsInvolution(res: XSumoResult)
    ensures res.Opposite().Opposite() == res
    ensures res.Opposite() == res <==> res == Tie
    ensures res.Opposite() == Tie <==> res == Tie
  {
  }

  /** `XSumoResult.by_opcode`: a byte that is not one of the three letters
      raises ValueError. */
  function ByOpcode(b: byte): (r: Result<XSumoResult, Error>)
    ensures r.Success? <==> b == 76 || b == 84 || b == 87
    ensures r.Success? ==> r.value.Opcode() == b
    ensures r.Failure? ==> r.error == ValueError
  {
    if b == 'L' as int then Success(Lose)
    else if b == 'T' as int then Success(Tie)
    else if b == 'W' as int then Success(Win)
    else Failure(ValueError)
  }

  lemma ByOpcodeOfOpcode(res: XSumoResult)
    ensures ByOpcode(res.Opcode()) == Success(res)
  {
  }

  /** `result(ns1, ns2)`: the result of the side that scored `ns1`. */
  function ResultOf(ns1: int, ns2: int): (r: XSumoResult)
    ensures r == Win <==> ns1 > ns2
    ensures r == Lose <==> ns1 < ns2
    ensures r == Tie <==> ns1 == ns2
  {
    if ns1 > ns2 then Win
    else if ns1 < ns2 then Lose
    else Tie
  }

  /** Swapping the sides gives the opposite result. */
  lemma ResultOfSwapped(ns1: int, ns2: int)
    ensures ResultOf(ns2, ns1) == ResultOf(ns1, ns2).Opposite()
  {
  }

  /** One round of a match, from one competitor's side. */
  datatype Round =
    | XSRound(first: bool, result: XSumoResult)
    | XMRound(results: seq<int>)

  /** Which ruleset the score belongs to: XSRuleset or XMRuleset. */
  datatype Format = XS | XM

  predicate RoundFits(fmt: Format, r: Round) {
    match fmt
    case XS => r.XSRound?
    case XM => r.XMRound?
  }

  predicate Fits(fmt: Format, rounds: seq<Round>) {
    forall i :: 0 <= i < |rounds| ==> RoundFits(fmt, rounds[i])
  }

  datatype XSumoScore = XSumoScore(result: Option<XSumoResult>, rounds: seq<Round>)

  /** `create_score()`: no result yet and no rounds. */
  function CreateScore(): (s: XSumoScore)
    ensures s.result.None? && s.rounds == []
  {
    XSumoScore(None, [])
  }

  /** `XSRoundScore.SCORING`: a loss is worth nothing and a win most. */
  function Scoring(res: XSumoResult): (p: nat)
    ensures p <= 3
    ensures p == 0 <==> res == Lose
    ensures p == 1 <==> res == Tie
    ensures p == 3 <==> res == Win
  {
    match res
    case Lose => 0
    case Tie => 1
    case Win => 3
  }

  /** `int(round)`: an XS round is worth its result plus one for reaching
      the arena first; an XM round is the sum of its pseudo-round points. */
  function Points(r: Round): (p: int)
    ensures r.XSRound? ==> 0 <= p <= 4
  {
    match r
    case XSRound(first, res) => (if first then 1 else 0) + Scoring(res)
    case XMRound(results) => Sum(results)
  }

  lemma XSPointsRange(first: bool, res: XSumoResult)
    ensures 0 <= Points(XSRound(first, res)) <= 4
    ensures Points(XSRound(first, res)) == 4 <==> first && res == Win
  {
  }

  /** `int(score)`: the sum of the round points; XS rounds are worth at
      most 4 each. */
  function Total(rounds: seq<Round>): (t: int)
    ensures Fits(XS, rounds) ==> 0 <= t <= 4 * |rounds|
  {
    if rounds == [] then 0
    else
      assert Fits(XS, rounds) ==> Fits(XS, rounds[..|rounds| - 1]) by {
        assert forall i :: 0 <= i < |rounds| - 1 ==> rounds[..|rounds| - 1][i] == rounds[i];
      }
      Total(rounds[..|rounds| - 1]) + Points(rounds[|rounds| - 1])
  }

  lemma {:induction false} TotalConcat(a: seq<Round>, b: seq<Round>)
    ensures Total(a + b) == Total(a) + Total(b)
    decreases |b|
  {
    if b == [] {
      assert a + b == a;
    } else {
      assert (a + b)[..|a + b| - 1] == a + b[..|b| - 1];
      TotalConcat(a, b[..|b| - 1]);
    }
  }

  /** `calc_results(s1, s2)`: sets the first side's result from the two
      totals and the second side's to its opposite; rounds are untouched. */
  function CalcResults(s1: XSumoScore, s2: XSumoScore): (r: (XSumoScore, XSumoScore))
    ensures r.0.rounds == s1.rounds && r.1.rounds == s2.rounds
    ensures r.0.result == Some(ResultOf(Total(s1.rounds), Total(s2.rounds)))
    ensures r.1.result == Some(r.0.result.value.Opposite())
  {
    var res := ResultOf(Total(s1.rounds), Total(s2.rounds));
    (s1.(result := Some(res)), s2.(result := Some(res.Opposite())))
  }

  /** Worked matches: a first-and-won round against a lost one is 4-0 and a
      win; two tied rounds with one side first are 2-1; two crossed rounds
      are 4-4 and a tie on both sides; XM pseudo-rounds (1,0), (2,2) are 3-2. */
  lemma ExampleMatches()
    ensures var (a, b) := CalcResults(XSumoScore(None, [XSRound(true, Win)]), XSumoScore(None, [XSRound(false, Lose)]));
      Total(a.rounds) == 4 && Total(b.rounds) == 0 && a.result == Some(Win) && b.result == Some(Lose)
    ensures var (a, b) := CalcResults(XSumoScore(None, [XSRound(true, Tie)]), XSumoScore(None, [XSRound(false, Tie)]));
      Total(a.rounds) == 2 && Total(b.rounds) == 1 && a.result == Some(Win) && b.result == Some(Lose)
    ensures var (a, b) := CalcResults(XSumoScore(None, [XSRound(false, Win), XSRound(true, Lose)]),
                                      XSumoScore(None, [XSRound(true, Lose), XSRound(false, Win)]));
      Total(a.rounds) == 4 && Total(b.rounds) == 4 && a.result == Some(Tie) && b.result == Some(Tie)
    ensures var (a, b) := CalcResults(XSumoScore(None, [XMRound([1, 2])]), XSumoScore(None, [XMRound([0, 2])]));
      Total(a.rounds) == 3 && Total(b.rounds) == 2 && a.result == Some(Win) && b.result == Some(Lose)
  {
    var crossed := [XSRound(false, Win), XSRound(true, Lose)];
    assert crossed[..1] == [XSRound(false, Win)];
    var swapped := [XSRound(true, Lose), XSRound(false, Win)];
    assert swapped[..1] == [XSRound(true, Lose)];
    assert Sum([1, 2]) == 3 by { SumCons(1, [2]); }
    assert Sum([0, 2]) == 2 by { SumCons(0, [2]); }
  }

  /** After `calc_results`, each side holds the result its own totals give. */
  lemma CalcResultsSymmetric(s1: XSumoScore, s2: XSumoScore)
    ensures CalcResults(s1, s2).1.result == Some(ResultOf(Total(s2.rounds), Total(s1.rounds)))
  {
    ResultOfSwapped(Total(s1.rounds), Total(s2.rounds));
  }

  // ---------------------------------------------------------------------
  // Validation

  /** The messages of the ValidationErrors raised below; `%s` of a result
      is its letter and `%d` of a number its decimal form. */
  const MsgNotSet := "Result is not set, call calc_results() first"
  const MsgBothFirst := "Both marked first"

  function Letters(res1: XSumoResult, res2: XSumoResult): string {
    "(" + [res1.Char()] + ", " + [res2.Char()] + ")"
  }

  function Numbers(n1: int, n2: int): string {
    "(" + PyInt.Decimal(n1) + ", " + PyInt.Decimal(n2) + ")"
  }

  function MsgConflictingResults(res1: XSumoResult, res2: XSumoResult): string {
    "Conflicting results: " + Letters(res1, res2)
  }

  function MsgConflictingScores(res1: XSumoResult, res2: XSumoResult, ns1: int, ns2: int): string {
    "Conflicting scores: " + Letters(res1, res2) + ", " + Numbers(ns1, ns2)
  }

  function MsgRoundCount(n1: int, n2: int): string {
    "Inconsistent number of rounds " + Numbers(n1, n2)
  }

  function MsgInvalidResult(res1: XSumoResult, res2: XSumoResult): string {
    "Invalid result: " + Letters(res1, res2)
  }

  function MsgExpectedLL(res1: XSumoResult, res2: XSumoResult): string {
    "Invalid result: Expected L-L got " + Letters(res1, res2)
  }

  function MsgLengthMismatch(n1: int, n2: int): string {
    "Result length mismatch: " + PyInt.Decimal(n1) + " != " + PyInt.Decimal(n2)
  }

  function MsgInvalidPseudoround(res1: int, res2: int): string {
    "Invalid result: " + Numbers(res1, res2)
  }

  /** `round_result_valid`: both lost, or the results are opposites. */
  predicate RoundResultValid(res1: XSumoResult, res2: XSumoResult) {
    (res1 == Lose && res2 == Lose) || res1 == res2.Opposite()
  }

  /** `pseudoround_result_valid`: a 3-0 or 1-0 win either way, or a 2-2 tie. */
  predicate PseudoroundValid(res1: int, res2: int) {
    var hi := if res1 >= res2 then res1 else res2;
    var lo := if res1 >= res2 then res2 else res1;
    (hi == 3 && lo == 0) || (hi == 1 && lo == 0) || (hi == 2 && lo == 2)
  }

  /** Two round results are compatible exactly as L-L, W-L, T-T or L-W. */
  lemma RoundResultShapes(res1: XSumoResult, res2: XSumoResult)
    ensures RoundResultValid(res1, res2) <==> (res1, res2) in {(Lose, Lose), (Win, Lose), (Tie, Tie), (Lose, Win)}
    ensures RoundResultValid(res1, res2) <==> RoundResultValid(res2, res1)
  {
  }

  /** The pseudo-round pairs that can occur are exactly these five. */
  lemma PseudoroundShapes(a: int, b: int)
    ensures PseudoroundValid(a, b) <==> (a, b) in {(3, 0), (0, 3), (1, 0), (0, 1), (2, 2)}
  {
  }

  /** `_validate_rounds` of XSRuleset and of the pseudo-round rulesets. */
  function ValidateRound(fmt: Format, r1: Round, r2: Round): (v: Validation)
    requires RoundFits(fmt, r1) && RoundFits(fmt, r2)
    ensures fmt == XS && r1.first && r2.first ==> v == Fail(ValidationError(MsgBothFirst))
    ensures fmt == XS && r1.first != r2.first && !RoundResultValid(r1.result, r2.result)
      ==> v == Fail(ValidationError(MsgInvalidResult(r1.result, r2.result)))
    ensures fmt == XS && !r1.first && !r2.first && (r1.result != Lose || r2.result != Lose)
      ==> v == Fail(ValidationError(MsgExpectedLL(r1.result, r2.result)))
    ensures fmt == XM && |r1.results| != |r2.results|
      ==> v == Fail(ValidationError(MsgLengthMismatch(|r1.results|, |r2.results|)))
    ensures fmt == XS && r1.first != r2.first ==> (v.Pass? <==> RoundResultValid(r1.result, r2.result))
    ensures fmt == XS && !r1.first && !r2.first ==> (v.Pass? <==> r1.result == Lose && r2.result == Lose)
    ensures fmt == XM ==> (v.Pass? <==>
      |r1.results| == |r2.results| && forall i :: 0 <= i < |r1.results| ==> PseudoroundValid(r1.results[i], r2.results[i]))
  {
    match fmt
    case XS =>
      if r1.first && r2.first then Fail(ValidationError(MsgBothFirst))
      else if r1.first || r2.first then
        if !RoundResultValid(r1.result, r2.result) then Fail(ValidationError(MsgInvalidResult(r1.result, r2.result)))
        else Pass
      else if r1.result != Lose || r2.result != Lose then Fail(ValidationError(MsgExpectedLL(r1.result, r2.result)))
      else Pass
    case XM =>
      if |r1.results| != |r2.results| then Fail(ValidationError(MsgLengthMismatch(|r1.results|, |r2.results|)))
      else ValidatePseudorounds(r1.results, r2.results)
  }

  /** The pseudo-round loop of `_validate_rounds`: the first invalid pair
      raises, naming its two values. */
  function ValidatePseudorounds(a: seq<int>, b: seq<int>): (v: Validation)
    requires |a| == |b|
    ensures v.Pass? <==> forall i :: 0 <= i < |a| ==> PseudoroundValid(a[i], b[i])
    ensures v.Fail? ==> exists i ::
      && 0 <= i < |a|
      && (forall j :: 0 <= j < i ==> PseudoroundValid(a[j], b[j]))
      && !PseudoroundValid(a[i], b[i])
      && v == Fail(ValidationError(MsgInvalidPseudoround(a[i], b[i])))
  {
    if a == [] then Pass
    else if !PseudoroundValid(a[0], b[0]) then Fail(ValidationError(MsgInvalidPseudoround(a[0], b[0])))
    else
      var rest := ValidatePseudorounds(a[1..], b[1..]);
      assert forall i :: 0 <= i < |a| - 1 ==> a[1..][i] == a[i + 1] && b[1..][i] == b[i + 1];
      assert forall i :: 0 < i < |a| ==> a[i] == a[1..][i - 1] && b[i] == b[1..][i - 1];
      rest
  }

  /** The XS round pairs that pass are exactly the nine listed by the
      match rules: nobody first and both lose, or one side first and the
      results are W-L, T-T, L-W or L-L. */
  const ValidXSPairs: set<(Round, Round)> := {
    (XSRound(false, Lose), XSRound(false, Lose)),
    (XSRound(true, Win), XSRound(false, Lose)),
    (XSRound(true, Tie), XSRound(false, Tie)),
    (XSRound(true, Lose), XSRound(false, Win)),
    (XSRound(true, Lose), XSRound(false, Lose)),
    (XSRound(false, Win), XSRound(true, Lose)),
    (XSRound(false, Tie), XSRound(true, Tie)),
    (XSRound(false, Lose), XSRound(true, Win)),
    (XSRound(false, Lose), XSRound(true, Lose))
  }

  lemma XSRoundShapes(r1: Round, r2: Round)
    requires r1.XSRound? && r2.XSRound?
    ensures ValidateRound(XS, r1, r2).Pass? <==> (r1, r2) in ValidXSPairs
  {
  }

  /** The `zip` loop of `validate`: the first failing pair's error is raised. */
  function ValidateRoundPairs(fmt: Format, rs1: seq<Round>, rs2: seq<Round>): (v: Validation)
    requires |rs1| == |rs2| && Fits(fmt, rs1) && Fits(fmt, rs2)
    ensures v.Pass? <==> forall i :: 0 <= i < |rs1| ==> ValidateRound(fmt, rs1[i], rs2[i]).Pass?
    ensures v.Fail? ==> exists i ::
      && 0 <= i < |rs1|
      && (forall j :: 0 <= j < i ==> ValidateRound(fmt, rs1[j], rs2[j]).Pass?)
      && v == ValidateRound(fmt, rs1[i], rs2[i])
  {
    if rs1 == [] then Pass
    else
      match ValidateRound(fmt, rs1[0], rs2[0])
      case Fail(e) => Fail(e)
      case Pass =>
        var rest := ValidateRoundPairs(fmt, rs1[1..], rs2[1..]);
        assert forall i :: 0 <= i < |rs1| - 1 ==> rs1[1..][i] == rs1[i + 1] && rs2[1..][i] == rs2[i + 1];
        assert forall i :: 0 < i < |rs1| ==> rs1[i] == rs1[1..][i - 1] && rs2[i] == rs2[1..][i - 1];
        rest
  }

  /** Everything the pair check demands of two match scores. */
  ghost predicate Consistent(fmt: Format, s1: XSumoScore, s2: XSumoScore)
    requires Fits(fmt, s1.rounds) && Fits(fmt, s2.rounds)
  {
    && s1.result.Some? && s2.result.Some?
    && s1.result.value == s2.result.value.Opposite()
    && s1.result.value == ResultOf(Total(s1.rounds), Total(s2.rounds))
    && |s1.rounds| == |s2.rounds|
    && forall i :: 0 <= i < |s1.rounds| ==> ValidateRound(fmt, s1.rounds[i], s2.rounds[i]).Pass?
  }

  /** `validate(s1, s2)`: the checks run in the order listed, and the
      first one that fails decides the error. */
  function Validate(fmt: Format, s1: XSumoScore, s2: XSumoScore): (v: Validation)
    requires Fits(fmt, s1.rounds) && Fits(fmt, s2.rounds)
    ensures v.Pass? <==> Consistent(fmt, s1, s2)
    ensures s1.result.None? || s2.result.None? ==> v == Fail(ValidationError(MsgNotSet))
    ensures s1.result.Some? && s2.result.Some? && s1.result.value != s2.result.value.Opposite()
      ==> v == Fail(ValidationError(MsgConflictingResults(s1.result.value, s2.result.value)))
    ensures s1.result.Some? && s2.result.Some? && s1.result.value == s2.result.value.Opposite()
      && s1.result.value != ResultOf(Total(s1.rounds), Total(s2.rounds))
      ==> v == Fail(ValidationError(MsgConflictingScores(s1.result.value, s2.result.value,
                                                         Total(s1.rounds), Total(s2.rounds))))
    ensures s1.result.Some? && s2.result.Some? && s1.result.value == s2.result.value.Opposite()
      && s1.result.value == ResultOf(Total(s1.rounds), Total(s2.rounds)) && |s1.rounds| != |s2.rounds|
      ==> v == Fail(ValidationError(MsgRoundCount(|s1.rounds|, |s2.rounds|)))
    ensures v.Fail? && s1.result.Some? && s2.result.Some? && s1.result.value == s2.result.value.Opposite()
      && s1.result.value == ResultOf(Total(s1.rounds), Total(s2.rounds)) && |s1.rounds| == |s2.rounds|
      ==> exists i ::
        && 0 <= i < |s1.rounds|
        && (forall j :: 0 <= j < i ==> ValidateRound(fmt, s1.rounds[j], s2.rounds[j]).Pass?)
        && v == ValidateRound(fmt, s1.rounds[i], s2.rounds[i])
  {
    if s1.result.None? || s2.result.None? then Fail(ValidationError(MsgNotSet))
    else if s1.result.value != s2.result.value.Opposite() then
      Fail(ValidationError(MsgConflictingResults(s1.result.value, s2.result.value)))
    else if s1.result.value != ResultOf(Total(s1.rounds), Total(s2.rounds)) then
      Fail(ValidationError(MsgConflictingScores(s1.result.value, s2.result.value, Total(s1.rounds), Total(s2.rounds))))
    else if |s1.rounds| != |s2.rounds| then Fail(ValidationError(MsgRoundCount(|s1.rounds|, |s2.rounds|)))
    else ValidateRoundPairs(fmt, s1.rounds, s2.rounds)
  }

  /** Two round lists of equal length whose pairs are all valid form a
      valid match once `calc_results` has filled in the results; with
      unequal lengths or an invalid pair they never do. */
  lemma CalcResultsValidates(fmt: Format, s1: XSumoScore, s2: XSumoScore)
    requires Fits(fmt, s1.rounds) && Fits(fmt, s2.rounds)
    ensures var (c1, c2) := CalcResults(s1, s2);
      Validate(fmt, c1, c2).Pass? <==>
        |s1.rounds| == |s2.rounds| &&
        forall i :: 0 <= i < |s1.rounds| ==> ValidateRound(fmt, s1.rounds[i], s2.rounds[i]).Pass?
  {
    var (c1, c2) := CalcResults(s1, s2);
    OppositeIsInvolution(c1.result.value);
  }

  /** A valid pair is symmetric: the results are opposites and each side's
      result is the one its own totals give. */
  lemma ValidIsSymmetric(fmt: Format, s1: XSumoScore, s2: XSumoScore)
    requires Fits(fmt, s1.rounds) && Fits(fmt, s2.rounds)
    requires Validate(fmt, s1, s2).Pass?
    ensures s2.result.value == s1.result.value.Opposite()
    ensures s2.result.value == ResultOf(Total(s2.rounds), Total(s1.rounds))
  {
    OppositeIsInvolution(s2.result.value);
    ResultOfSwapped(Total(s1.rounds), Total(s2.rounds));
  }

  // ---------------------------------------------------------------------
  // Byte codec: [result][number of rounds]{round}

  /** `_decode_round` at cursor `pos`. An XS round reads two bytes (fewer
      fail to unpack); any nonzero first byte means "first". An XM round
      reads a count and then at most that many bytes. */
  function DecodeRoundAt(fmt: Format, data: seq<byte>, pos: nat): (r: Result<(Round, nat), Error>)
    requires pos <= |data|
    ensures r.Success? ==> pos < r.value.1 <= |data| && RoundFits(fmt, r.value.0)
  {
    match fmt
    case XS =>
      var c := ReadAt(data, pos, 2);
      if |c| != 2 then Failure(ValueError)
      else
        (match ByOpcode(c[1])
         case Failure(e) => Failure(e)
         case Success(res) => Success((XSRound(c[0] != 0, res), pos + 2)))
    case XM =>
      if pos == |data| then Failure(IndexError)
      else
        var c := ReadAt(data, pos + 1, data[pos]);
        Success((XMRound(c), pos + 1 + |c|))
  }

  /** Decodes `count` more rounds after the ones already in `acc`. */
  function DecodeRoundsFrom(fmt: Format, data: seq<byte>, pos: nat, count: nat, acc: seq<Round>)
    : (r: Result<(seq<Round>, nat), Error>)
    requires pos <= |data|
    ensures r.Success? ==> pos <= r.value.1 <= |data| && |r.value.0| == |acc| + count
    decreases count
  {
    if count == 0 then Success((acc, pos))
    else
      match DecodeRoundAt(fmt, data, pos)
      case Failure(e) => Failure(e)
      case Success((rnd, next)) => DecodeRoundsFrom(fmt, data, next, count - 1, acc + [rnd])
  }

  /** What `decode(data)` returns or raises. Bytes after the last round are
      not looked at. */
  function Decoding(fmt: Format, data: seq<byte>): (r: Result<XSumoScore, Error>)
    ensures r.Success? ==> |data| >= 2 && r.value.result.Some? && |r.value.rounds| == data[1]
  {
    if |data| == 0 then Failure(IndexError)
    else
      match ByOpcode(data[0])
      case Failure(e) => Failure(e)
      case Success(res) =>
        if |data| < 2 then Failure(IndexError)
        else
          match DecodeRoundsFrom(fmt, data, 2, data[1], [])
          case Failure(e) => Failure(e)
          case Success((rounds, _)) => Success(XSumoScore(Some(res), rounds))
  }

  lemma {:induction false} DecodedRoundsFit(fmt: Format, data: seq<byte>, pos: nat, count: nat, acc: seq<Round>)
    requires pos <= |data| && Fits(fmt, acc)
    requires DecodeRoundsFrom(fmt, data, pos, count, acc).Success?
    ensures Fits(fmt, DecodeRoundsFrom(fmt, data, pos, count, acc).value.0)
    decreases count
  {
    if count > 0 {
      var (rnd, next) := DecodeRoundAt(fmt, data, pos).value;
      DecodedRoundsFit(fmt, data, next, count - 1, acc + [rnd]);
    }
  }

  /** Every decoded score has rounds of the ruleset's own format. */
  lemma DecodingFits(fmt: Format, data: seq<byte>)
    requires Decoding(fmt, data).Success?
    ensures Fits(fmt, Decoding(fmt, data).value.rounds)
  {
    DecodedRoundsFit(fmt, data, 2, data[1], []);
  }

  /** `_decode_round`: reads one round from the stream. */
  method DecodeRound(fmt: Format, stream: ByteStream) returns (r: Result<Round, Error>)
    requires stream.Valid()
    modifies stream`pos
    ensures stream.Valid()
    ensures match DecodeRoundAt(fmt, stream.data, old(stream.pos))
      case Failure(e) => r == Failure(e)
      case Success((rnd, next)) => r == Success(rnd) && stream.pos == next
  {
    match fmt
    case XS =>
      var c := stream.Read(2);
      if |c| != 2 {
        return Failure(ValueError);
      }
      var res := ByOpcode(c[1]);
      if res.Failure? {
        return Failure(res.error);
      }
      return Success(XSRound(c[0] != 0, res.value));
    case XM =>
      var n := stream.Read(1);
      if |n| == 0 {
        return Failure(IndexError);
      }
      var c := stream.Read(n[0]);
      return Success(XMRound(c));
  }

  /** `decode(data)`: walks a cursor over the bytes, one round at a time. */
  method Decode(fmt: Format, data: seq<byte>) returns (r: Result<XSumoScore, Error>)
    ensures r == Decoding(fmt, data)
  {
    var stream := new ByteStream(data);
    var head := stream.Read(1);
    if |head| == 0 {
      return Failure(IndexError);
    }
    var res := ByOpcode(head[0]);
    if res.Failure? {
      return Failure(res.error);
    }
    var count := stream.Read(1);
    if |count| == 0 {
      return Failure(IndexError);
    }
    var rounds: seq<Round> := [];
    var i := 0;
    while i < count[0]
      invariant stream.Valid() && stream.data == data
      invariant 0 <= i <= count[0]
      invariant DecodeRoundsFrom(fmt, data, 2, count[0], [])
        == DecodeRoundsFrom(fmt, data, stream.pos, count[0] - i, rounds)
    {
      var rnd := DecodeRound(fmt, stream);
      if rnd.Failure? {
        return Failure(rnd.error);
      }
      rounds := rounds + [rnd.value];
      i := i + 1;
    }
    return Success(XSumoScore(Some(res.value), rounds));
  }

  /** `_encode_round`: an XS round is [first as 0/1][result code]; an XM
      round is [count]{points}, each of which must fit in a byte. */
  function EncodeRound(fmt: Format, rnd: Round): (r: Result<seq<byte>, Error>)
    requires RoundFits(fmt, rnd)
    ensures r.Success? ==> |r.value| >= 1
  {
    match fmt
    case XS => Success([if rnd.first then 1 else 0, rnd.result.Opcode()])
    case XM =>
      if !IsByte(|rnd.results|) || exists i :: 0 <= i < |rnd.results| && !IsByte(rnd.results[i]) then
        Failure(ValueError)
      else
        Success([|rnd.results|] + rnd.results)
  }

  /** The rounds' encodings one after another; the first round that does
      not encode decides the error. */
  function EncodeRounds(fmt: Format, rounds: seq<Round>): (r: Result<seq<byte>, Error>)
    requires Fits(fmt, rounds)
    ensures r.Success? ==> |r.value| >= |rounds|
  {
    if rounds == [] then Success([])
    else
      match EncodeRound(fmt, rounds[0])
      case Failure(e) => Failure(e)
      case Success(b) =>
        match EncodeRounds(fmt, rounds[1..])
        case Failure(e) => Failure(e)
        case Success(rest) => Success(b + rest)
  }

  /** The rounds encode exactly when each of them does. */
  lemma {:induction false} EncodeRoundsSucceeds(fmt: Format, rounds: seq<Round>)
    requires Fits(fmt, rounds)
    ensures EncodeRounds(fmt, rounds).Success? <==> forall i :: 0 <= i < |rounds| ==> EncodeRound(fmt, rounds[i]).Success?
    decreases |rounds|
  {
    if rounds != [] {
      var rest := rounds[1..];
      assert forall i :: 0 <= i < |rest| ==> rest[i] == rounds[i + 1];
      assert forall i :: 0 < i < |rounds| ==> rounds[i] == rest[i - 1];
      EncodeRoundsSucceeds(fmt, rest);
    }
  }

  /** What `encode(score)` returns or raises: an unset result has no code
      (AttributeError) and more than 255 rounds do not fit the count byte. */
  function Encoding(fmt: Format, s: XSumoScore): (r: Result<seq<byte>, Error>)
    requires Fits(fmt, s.rounds)
    ensures r.Success? ==> s.result.Some? && |r.value| >= 2 && r.value[..2] == [s.result.value.Opcode(), |s.rounds|]
    ensures r.Failure? <==> s.result.None? || !IsByte(|s.rounds|) || EncodeRounds(fmt, s.rounds).Failure?
  {
    if s.result.None? then Failure(AttributeError)
    else if !IsByte(|s.rounds|) then Failure(ValueError)
    else
      match EncodeRounds(fmt, s.rounds)
      case Failure(e) => Failure(e)
      case Success(b) => Success([s.result.value.Opcode(), |s.rounds|] + b)
  }

  /** Prefixes already-written bytes to the outcome of writing the rest. */
  function After(written: seq<byte>, rest: Result<seq<byte>, Error>): Result<seq<byte>, Error> {
    match rest
    case Failure(e) => Failure(e)
    case Success(b) => Success(written + b)
  }

  /** `_encode_round(dest, rnd)`: appends the round to the buffer. */
  method EncodeRoundInto(fmt: Format, dest: ByteBuffer, rnd: Round) returns (o: Outcome<Error>)
    requires RoundFits(fmt, rnd)
    modifies dest
    ensures match EncodeRound(fmt, rnd)
      case Failure(e) => o == Fail(e)
      case Success(b) => o == Pass && dest.bytes == old(dest.bytes) + b
  {
    match fmt
    case XS =>
      o := dest.Append(if rnd.first then 1 else 0);
      o := dest.Append(rnd.result.Opcode());
    case XM =>
      o := dest.Append(|rnd.results|);
      if o.Pass? {
        o := dest.Extend(rnd.results);
      }
  }

  lemma EncodeStep(fmt: Format, rounds: seq<Round>, i: nat, written: seq<byte>)
    requires i < |rounds| && Fits(fmt, rounds) && EncodeRound(fmt, rounds[i]).Success?
    ensures After(written, EncodeRounds(fmt, rounds[i..]))
      == After(written + EncodeRound(fmt, rounds[i]).value, EncodeRounds(fmt, rounds[i + 1..]))
  {
    assert rounds[i..][0] == rounds[i] && rounds[i..][1..] == rounds[i + 1..];
    var b := EncodeRound(fmt, rounds[i]).value;
    match EncodeRounds(fmt, rounds[i + 1..])
    case Failure(_) =>
    case Success(rest) => assert written + (b + rest) == written + b + rest;
  }

  /** The `for r in score.rounds` loop of `encode`: appends every round's
      bytes, or stops at the first round that does not encode. */
  method EncodeRoundsInto(fmt: Format, buf: ByteBuffer, rounds: seq<Round>) returns (o: Outcome<Error>)
    requires Fits(fmt, rounds)
    modifies buf
    ensures match EncodeRounds(fmt, rounds)
      case Failure(e) => o == Fail(e)
      case Success(b) => o == Pass && buf.bytes == old(buf.bytes) + b
  {
    ghost var written: seq<byte> := [];
    var i := 0;
    assert rounds[i..] == rounds;
    assert After(written, EncodeRounds(fmt, rounds)) == EncodeRounds(fmt, rounds) by {
      match EncodeRounds(fmt, rounds)
      case Failure(_) =>
      case Success(b) => assert [] + b == b;
    }
    while i < |rounds|
      invariant 0 <= i <= |rounds|
      invariant buf.bytes == old(buf.bytes) + written
      invariant EncodeRounds(fmt, rounds) == After(written, EncodeRounds(fmt, rounds[i..]))
    {
      o := EncodeRoundInto(fmt, buf, rounds[i]);
      if o.Fail? {
        return;
      }
      EncodeStep(fmt, rounds, i, written);
      written := written + EncodeRound(fmt, rounds[i]).value;
      i := i + 1;
    }
    assert rounds[i..] == [];
    assert written + [] == written;
    o := Pass;
  }

  /** `encode(score)`: appends the header and then each round. */
  method Encode(fmt: Format, s: XSumoScore) returns (r: Result<seq<byte>, Error>)
    requires Fits(fmt, s.rounds)
    ensures r == Encoding(fmt, s)
  {
    if s.result.None? {
      return Failure(AttributeError);
    }
    var buf := new ByteBuffer();
    var o := buf.Append(s.result.value.Opcode());
    o := buf.Append(|s.rounds|);
    if o.Fail? {
      return Failure(o.error);
    }
    assert buf.bytes == [s.result.value.Opcode(), |s.rounds|];
    o := EncodeRoundsInto(fmt, buf, s.rounds);
    if o.Fail? {
      return Failure(o.error);
    }
    return Success(buf.bytes);
  }

  /** One encoded round, followed by anything, decodes back to itself. */
  lemma DecodeRoundOfEncoding(fmt: Format, rnd: Round, enc: seq<byte>, data: seq<byte>, pos: nat)
    requires RoundFits(fmt, rnd) && EncodeRound(fmt, rnd) == Success(enc)
    requires pos + |enc| <= |data| && data[pos..pos + |enc|] == enc
    ensures DecodeRoundAt(fmt, data, pos) == Success((rnd, pos + |enc|))
  {
    match fmt
    case XS =>
      assert ReadAt(data, pos, 2) == enc;
      ByOpcodeOfOpcode(rnd.result);
    case XM =>
      assert data[pos] == |rnd.results|;
      assert ReadAt(data, pos + 1, data[pos]) == enc[1..];
  }

  /** The encoding of a nonempty list is its first round's encoding
      followed by the rest's. */
  lemma EncodeRoundsCons(fmt: Format, rs: seq<Round>)
    requires rs != [] && Fits(fmt, rs) && EncodeRounds(fmt, rs).Success?
    ensures Fits(fmt, rs[1..]) && EncodeRound(fmt, rs[0]).Success? && EncodeRounds(fmt, rs[1..]).Success?
    ensures EncodeRounds(fmt, rs).value == EncodeRound(fmt, rs[0]).value + EncodeRounds(fmt, rs[1..]).value
  {
  }

  /** A slice holding `b + c` holds `b` and then `c`. */
  lemma SliceSplit(data: seq<byte>, pos: nat, b: seq<byte>, c: seq<byte>)
    requires pos + |b| + |c| <= |data| && data[pos..pos + |b| + |c|] == b + c
    ensures data[pos..pos + |b|] == b
    ensures data[pos + |b|..pos + |b| + |c|] == c
  {
    assert data[pos..pos + |b|] == data[pos..pos + |b| + |c|][..|b|];
    assert data[pos + |b|..pos + |b| + |c|] == data[pos..pos + |b| + |c|][|b|..];
  }

  /** One step of the round loop. */
  lemma DecodeRoundsStep(fmt: Format, data: seq<byte>, pos: nat, count: nat, acc: seq<Round>, rnd: Round, next: nat)
    requires pos <= |data| && count > 0 && DecodeRoundAt(fmt, data, pos) == Success((rnd, next))
    ensures DecodeRoundsFrom(fmt, data, pos, count, acc) == DecodeRoundsFrom(fmt, data, next, count - 1, acc + [rnd])
  {
  }

  lemma MoveFirst<T>(acc: seq<T>, xs: seq<T>)
    requires xs != []
    ensures acc + [xs[0]] + xs[1..] == acc + xs
  {
    assert [xs[0]] + xs[1..] == xs;
  }

  /** Reading the first of several encoded rounds leaves the cursor where
      the encoding of the others begins. */
  lemma FirstRoundOfEncoding(fmt: Format, rs: seq<Round>, enc: seq<byte>, data: seq<byte>,
                             pos: nat, acc: seq<Round>, count: nat)
    requires rs != [] && Fits(fmt, rs) && EncodeRounds(fmt, rs) == Success(enc)
    requires pos + |enc| <= |data| && data[pos..pos + |enc|] == enc && count == |rs|
    ensures Fits(fmt, rs[1..]) && EncodeRounds(fmt, rs[1..]).Success?
    ensures var rest := EncodeRounds(fmt, rs[1..]).value;
      && pos <= pos + |enc| - |rest|
      && data[pos + |enc| - |rest|..pos + |enc|] == rest
      && DecodeRoundsFrom(fmt, data, pos, count, acc)
         == DecodeRoundsFrom(fmt, data, pos + |enc| - |rest|, count - 1, acc + [rs[0]])
  {
    EncodeRoundsCons(fmt, rs);
    var b := EncodeRound(fmt, rs[0]).value;
    var rest := EncodeRounds(fmt, rs[1..]).value;
    SliceSplit(data, pos, b, rest);
    DecodeRoundOfEncoding(fmt, rs[0], b, data, pos);
    DecodeRoundsStep(fmt, data, pos, count, acc, rs[0], pos + |b|);
  }

  /** The rounds `rs`, encoded at `pos`, decode to `all` (the rounds
      already read followed by `rs`) and leave the cursor at `end`. */
  lemma {:induction false} DecodeRoundsOfEncodingTo(fmt: Format, rs: seq<Round>, enc: seq<byte>, data: seq<byte>,
                                                    pos: nat, acc: seq<Round>, count: nat, all: seq<Round>, end: nat)
    requires Fits(fmt, rs) && EncodeRounds(fmt, rs) == Success(enc)
    requires end == pos + |enc| && end <= |data| && data[pos..end] == enc
    requires count == |rs| && all == acc + rs
    ensures DecodeRoundsFrom(fmt, data, pos, count, acc) == Success((all, end))
    decreases |rs|
  {
    if rs == [] {
      assert enc == [] && acc + rs == acc;
    } else {
      FirstRoundOfEncoding(fmt, rs, enc, data, pos, acc, count);
      var rest := EncodeRounds(fmt, rs[1..]).value;
      var next := pos + |enc| - |rest|;
      MoveFirst(acc, rs);
      DecodeRoundsOfEncodingTo(fmt, rs[1..], rest, data, next, acc + [rs[0]], count - 1, all, end);
    }
  }

  /** Encoded rounds, followed by anything, decode back to themselves. */
  lemma DecodeRoundsOfEncoding(fmt: Format, rs: seq<Round>, enc: seq<byte>, data: seq<byte>, pos: nat, acc: seq<Round>)
    requires Fits(fmt, rs) && EncodeRounds(fmt, rs) == Success(enc)
    requires pos + |enc| <= |data| && data[pos..pos + |enc|] == enc
    ensures DecodeRoundsFrom(fmt, data, pos, |rs|, acc) == Success((acc + rs, pos + |enc|))
  {
    DecodeRoundsOfEncodingTo(fmt, rs, enc, data, pos, acc, |rs|, acc + rs, pos + |enc|);
  }

  /** `decode(encode(s)) == s`, and it stays so whatever bytes follow the
      encoding, since decode ignores trailing bytes. */
  lemma DecodeOfEncoding(fmt: Format, s: XSumoScore, extra: seq<byte>)
    requires Fits(fmt, s.rounds) && Encoding(fmt, s).Success?
    ensures Decoding(fmt, Encoding(fmt, s).value + extra) == Success(s)
  {
    var enc := Encoding(fmt, s).value;
    var body := EncodeRounds(fmt, s.rounds).value;
    var data := enc + extra;
    assert data[0] == s.result.value.Opcode() && data[1] == |s.rounds|;
    ByOpcodeOfOpcode(s.result.value);
    assert data[2..2 + |body|] == body;
    DecodeRoundsOfEncoding(fmt, s.rounds, body, data, 2, []);
    assert [] + s.rounds == s.rounds;
  }

  /** A truncated XM round is not an error: a count of 5 with no bytes
      behind it decodes as an empty round, which re-encodes differently. */
  lemma TruncatedXMRoundAccepted()
    ensures Decoding(XM, [87, 1, 5]) == Success(XSumoScore(Some(Win), [XMRound([])]))
    ensures Encoding(XM, XSumoScore(Some(Win), [XMRound([])])) == Success([87, 1, 0])
  {
    var data: seq<byte> := [87, 1, 5];
    assert ReadAt(data, 3, 5) == [];
    assert DecodeRoundAt(XM, data, 2) == Success((XMRound([]), 3));
    assert [] + [XMRound([])] == [XMRound([])];
    assert DecodeRoundsFrom(XM, data, 3, 0, [XMRound([])]) == Success(([XMRound([])], 3));
    assert DecodeRoundsFrom(XM, data, 2, 1, []) == Success(([XMRound([])], 3));
    assert ByOpcode(data[0]) == Success(Win) && data[1] == 1;
    assert Decoding(XM, data) == Success(XSumoScore(Some(Win), [XMRound([])]));
    assert EncodeRounds(XM, [XMRound([])][1..]) == Success([]);
    var empty: seq<int> := [];
    assert [|empty|] + empty == [0];
    assert EncodeRound(XM, XMRound([])) == Success([0]);
    assert EncodeRounds(XM, [XMRound([])]) == Success([0]);
    assert Win.Opcode() == 87;
    var head: seq<byte> := [87, 1];
    assert head + [0] == [87, 1, 0];
  }

  /** Any nonzero "first" byte reads as true, so it re-encodes as 1. */
  lemma NonzeroFirstByteAccepted()
    ensures Decoding(XS, [87, 1, 7, 87]) == Success(XSumoScore(Some(Win), [XSRound(true, Win)]))
    ensures Encoding(XS, XSumoScore(Some(Win), [XSRound(true, Win)])) == Success([87, 1, 1, 87])
  {
    var data: seq<byte> := [87, 1, 7, 87];
    var rnd := XSRound(true, Win);
    assert ReadAt(data, 2, 2) == [7, 87];
    assert DecodeRoundAt(XS, data, 2) == Success((rnd, 4));
    assert [] + [rnd] == [rnd];
    assert DecodeRoundsFrom(XS, data, 4, 0, [rnd]) == Success(([rnd], 4));
    assert DecodeRoundsFrom(XS, data, 2, 1, []) == Success(([rnd], 4));
    assert ByOpcode(data[0]) == Success(Win) && data[1] == 1;
    assert Decoding(XS, data) == Success(XSumoScore(Some(Win), [rnd]));
    assert EncodeRounds(XS, [rnd][1..]) == Success([]);
    assert EncodeRound(XS, rnd) == Success([1, 87]);
    assert [1, 87] + [] == [1, 87];
    assert EncodeRounds(XS, [rnd]) == Success([1, 87]);
    assert Win.Opcode() == 87;
    var head: seq<byte> := [87, 1];
    assert head + [1, 87] == [87, 1, 1, 87];
  }

  // ---------------------------------------------------------------------
  // Ranking a team's matches

  /** `XSumoRank`: total points and the tally of match outcomes. */
  datatype XSumoRank = XSumoRank(score: int, wins: nat, ties: nat, losses: nat, unplayed: nat) {
    function Played(): nat {
      wins + ties + losses
    }
  }

  datatype Tally = Unplayed | Won | Tied | Lost

  /** How `from_scores` counts one entry: a missing score is unplayed, and
      any result other than W or T (an unset one included) is a loss. */
  function TallyOf(s: Option<XSumoScore>): (t: Tally)
    ensures t == Unplayed <==> s.None?
    ensures s.Some? && s.value.result.None? ==> t == Lost
  {
    if s.None? then Unplayed
    else if s.value.result == Some(Win) then Won
    else if s.value.result == Some(Tie) then Tied
    else Lost
  }

  function CountOf(scores: seq<Option<XSumoScore>>, t: Tally): nat {
    if scores == [] then 0
    else CountOf(scores[..|scores| - 1], t) + (if TallyOf(scores[|scores| - 1]) == t then 1 else 0)
  }

  /** The sum of the totals of the played matches. */
  function PlayedPoints(scores: seq<Option<XSumoScore>>): int {
    if scores == [] then 0
    else
      var last := scores[|scores| - 1];
      PlayedPoints(scores[..|scores| - 1]) + (if last.Some? then Total(last.value.rounds) else 0)
  }

  /** Every entry falls in exactly one of the four tallies. */
  lemma {:induction false} TalliesPartition(scores: seq<Option<XSumoScore>>)
    ensures CountOf(scores, Won) + CountOf(scores, Tied) + CountOf(scores, Lost) + CountOf(scores, Unplayed)
      == |scores|
  {
    if scores != [] {
      TalliesPartition(scores[..|scores| - 1]);
    }
  }

  /** `from_scores(scores)`: one pass that adds up five counters. */
  method FromScores(scores: seq<Option<XSumoScore>>) returns (rank: XSumoRank)
    ensures rank == XSumoRank(PlayedPoints(scores), CountOf(scores, Won), CountOf(scores, Tied),
                              CountOf(scores, Lost), CountOf(scores, Unplayed))
    ensures rank.Played() + rank.unplayed == |scores|
  {
    rank := XSumoRank(0, 0, 0, 0, 0);
    var i := 0;
    while i < |scores|
      invariant 0 <= i <= |scores|
      invariant rank == XSumoRank(PlayedPoints(scores[..i]), CountOf(scores[..i], Won), CountOf(scores[..i], Tied),
                                  CountOf(scores[..i], Lost), CountOf(scores[..i], Unplayed))
    {
      assert scores[..i + 1][..i] == scores[..i];
      var s := scores[i];
      if s.None? {
        rank := rank.(unplayed := rank.unplayed + 1);
      } else {
        rank := rank.(score := rank.score + Total(s.value.rounds));
        if s.value.result == Some(Win) {
          rank := rank.(wins := rank.wins + 1);
        } else if s.value.result == Some(Tie) {
          rank := rank.(ties := rank.ties + 1);
        } else {
          rank := rank.(losses := rank.losses + 1);
        }
      }
      i := i + 1;
    }
    assert scores[..i] == scores;
    TalliesPartition(scores);
  }

  /** `XSumoScoreRank`: ranks compare by points alone. */
  predicate ScoreRankLess(a: XSumoRank, b: XSumoRank) {
    a.score < b.score
  }

  /** `__eq__` is "neither ranks below the other". */
  predicate ScoreRankEq(a: XSumoRank, b: XSumoRank): (r: bool)
    ensures r <==> !ScoreRankLess(a, b) && !ScoreRankLess(b, a)
  {
    a.score == b.score
  }

  /** `XSumoWinsRank`: ranks compare by wins, then by ties. */
  predicate WinsRankLess(a: XSumoRank, b: XSumoRank) {
    if a.wins != b.wins then a.wins < b.wins else a.ties < b.ties
  }

  /** The wins order is lexicographic on (wins, ties). */
  lemma WinsRankLexicographic(a: XSumoRank, b: XSumoRank)
    ensures WinsRankLess(a, b) <==> a.wins < b.wins || (a.wins == b.wins && a.ties < b.ties)
  {
  }

  predicate WinsRankEq(a: XSumoRank, b: XSumoRank): (r: bool)
    ensures r <==> !WinsRankLess(a, b) && !WinsRankLess(b, a)
  {
    a.wins == b.wins && a.ties == b.ties
  }

  /** Both rank orders are strict weak orders whose equality is "neither
      is below the other", as the sort and the rank numbering assume. */
  lemma ScoreRankOrder()
    ensures StrictWeakOrder(ScoreRankLess)
  {
  }

  lemma WinsRankOrder()
    ensures StrictWeakOrder(WinsRankLess)
  {
  }
}
