/** The tournament registry and the standings helpers
    (robostat/tournament.py): blocks (a group of events judged by one
    ruleset) and rankings are registered under unique ids; decoded scores
    are grouped per team and folded by an aggregate; standings are sorted
    best first, ties kept in their incoming order. */
module Tournament {
  import opened Common
  import opened Util

  // ---------------------------------------------------------------------
  // Blocks and rankings

  /** `name or id`: a missing or empty name falls back to the id. */
  function NameOr(name: Option<string>, id: string): (n: string)
    ensures name.Some? && name.value != "" ==> n == name.value
    ensures name.None? || name.value == "" ==> n == id
  {
    match name
    case Some(s) => if s != "" then s else id
    case None => id
  }

  datatype Block<R> = Block(id: string, ruleset: R, name: string)

  /** `Block(tournament, id, ruleset, name=name)`. */
  function MakeBlock<R>(id: string, ruleset: R, name: Option<string>): (b: Block<R>)
    ensures b.id == id && b.ruleset == ruleset
    ensures b.name == NameOr(name, id)
  {
    Block(id, ruleset, NameOr(name, id))
  }

  /** `Ranking(tournament, id, f, name=name)`: `f` computes the standings. */
  datatype Ranking<F> = Ranking(id: string, f: F, name: string)

  function MakeRanking<F>(id: string, f: F, name: Option<string>): (r: Ranking<F>)
    ensures r.id == id && r.f == f
    ensures r.name == NameOr(name, id)
  {
    Ranking(id, f, NameOr(name, id))
  }

  /** A block or ranking is always known by a non-empty name when its id
      is non-empty, and its name is the id unless a non-empty one was
      given. */
  lemma NameDefaultsToId(name: Option<string>, id: string)
    ensures id != "" ==> NameOr(name, id) != ""
    ensures NameOr(name, id) == id || (name.Some? && NameOr(name, id) == name.value)
  {
  }

  /** `Tournament`: the registries of blocks and rankings by id. */
  class Tournament<R, F> {
    const blocks: UDict<string, Block<R>>
    const rankings: UDict<string, Ranking<F>>

    constructor ()
      ensures fresh(blocks) && fresh(rankings)
      ensures blocks.items == map[] && rankings.items == map[]
    {
      blocks := new UDict();
      rankings := new UDict();
    }

    /** `block(id, ruleset, name=name)`: creates and registers a block;
        a taken id raises DuplicateKeyError and leaves the registry as it
        was. */
    method AddBlock(id: string, ruleset: R, name: Option<string>) returns (r: Result<Block<R>, Error>)
      modifies blocks
      ensures id in old(blocks.items) ==> r == Failure(DuplicateKeyError) && blocks.items == old(blocks.items)
      ensures id !in old(blocks.items) ==>
        r == Success(MakeBlock(id, ruleset, name)) && blocks.items == old(blocks.items)[id := r.value]
    {
      var b := MakeBlock(id, ruleset, name);
      var o := blocks.SetItem(b.id, b);
      if o.Fail? {
        r := Failure(o.error);
      } else {
        r := Success(b);
      }
    }

    /** `add_ranking(ranking)`: registers a ranking under its id. */
    method AddRanking(ranking: Ranking<F>) returns (o: Outcome<Error>)
      modifies rankings
      ensures ranking.id in old(rankings.items) ==> o == Fail(DuplicateKeyError) && rankings.items == old(rankings.items)
      ensures ranking.id !in old(rankings.items) ==>
        o == Pass && rankings.items == old(rankings.items)[ranking.id := ranking]
    {
      o := rankings.SetItem(ranking.id, ranking);
    }

    /** `ranking(id, name=name)(f)`: registers `f` as a ranking and hands
        `f` back. */
    method RankingDecorator(id: string, name: Option<string>, f: F) returns (r: Result<F, Error>)
      modifies rankings
      ensures id in old(rankings.items) ==> r == Failure(DuplicateKeyError) && rankings.items == old(rankings.items)
      ensures id !in old(rankings.items) ==>
        r == Success(f) && rankings.items == old(rankings.items)[id := MakeRanking(id, f, name)]
    {
      var o := AddRanking(MakeRanking(id, f, name));
      if o.Fail? {
        r := Failure(o.error);
      } else {
        r := Success(f);
      }
    }
  }

  // ---------------------------------------------------------------------
  // Decoding the scores of several blocks

  /** One fetched score row: the team, the block its event belongs to,
      whether it was judged, and its bytes. */
  datatype ScoreRow<T> = ScoreRow(team: T, blockId: string, hasScore: bool, data: seq<byte>)

  /** `dict((b.id, b) for b in blocks)`: every block is filed under its
      own id, and the map is no larger than the list. */
  function BlockMap<R>(blocks: seq<Block<R>>): (m: map<string, Block<R>>)
    ensures forall id :: id in m ==> m[id].id == id
    ensures |m| <= |blocks|
  {
    if blocks == [] then map[]
    else BlockMap(blocks[..|blocks| - 1])[blocks[|blocks| - 1].id := blocks[|blocks| - 1]]
  }

  /** No later block has the id of `blocks[i]`. */
  predicate LastWithId<R>(blocks: seq<Block<R>>, i: nat)
    requires i < |blocks|
  {
    forall j :: i < j < |blocks| ==> blocks[j].id != blocks[i].id
  }

  /** The map knows exactly the ids of the listed blocks. */
  lemma {:induction false} BlockMapKeys<R>(blocks: seq<Block<R>>, id: string)
    ensures id in BlockMap(blocks) <==> exists i :: 0 <= i < |blocks| && blocks[i].id == id
    decreases |blocks|
  {
    if blocks != [] {
      var n := |blocks| - 1;
      BlockMapKeys(blocks[..n], id);
      if exists i :: 0 <= i < n && blocks[..n][i].id == id {
        var i :| 0 <= i < n && blocks[..n][i].id == id;
        assert blocks[i] == blocks[..n][i];
      }
      if exists i :: 0 <= i < n && blocks[i].id == id {
        var i :| 0 <= i < n && blocks[i].id == id;
        assert blocks[..n][i] == blocks[i];
      }
    }
  }

  /** Of several blocks with one id, the last one listed wins. */
  lemma {:induction false} BlockMapLastWins<R>(blocks: seq<Block<R>>, i: nat)
    requires i < |blocks| && LastWithId(blocks, i)
    ensures blocks[i].id in BlockMap(blocks) && BlockMap(blocks)[blocks[i].id] == blocks[i]
    decreases |blocks|
  {
    var n := |blocks| - 1;
    if i < n {
      assert blocks[..n][i] == blocks[i];
      assert LastWithId(blocks[..n], i) by {
        forall j | i < j < n
          ensures blocks[..n][j].id != blocks[..n][i].id
        {
          assert blocks[..n][j] == blocks[j];
        }
      }
      BlockMapLastWins(blocks[..n], i);
    }
  }

  /** One row: an unjudged row gives no score; a judged row is decoded by
      its block's ruleset, and a block missing from the map raises
      KeyError. */
  function DecodeRow<T, R, S>(bs: map<string, Block<R>>, decode: (R, seq<byte>) -> Result<S, Error>, row: ScoreRow<T>)
    : (r: Result<(T, Option<S>), Error>)
    ensures !row.hasScore ==> r == Success((row.team, None))
    ensures row.hasScore && row.blockId !in bs ==> r == Failure(KeyError)
    ensures row.hasScore && row.blockId in bs ==>
      (r.Success? <==> decode(bs[row.blockId].ruleset, row.data).Success?)
    ensures r.Success? ==> r.value.0 == row.team && (r.value.1.Some? <==> row.hasScore)
  {
    if !row.hasScore then Success((row.team, None))
    else if row.blockId !in bs then Failure(KeyError)
    else
      match decode(bs[row.blockId].ruleset, row.data)
      case Success(s) => Success((row.team, Some(s)))
      case Failure(e) => Failure(e)
  }

  /** The rows in order; the first row that fails stops the list. */
  function DecodeRows<T, R, S>(bs: map<string, Block<R>>, decode: (R, seq<byte>) -> Result<S, Error>, rows: seq<ScoreRow<T>>)
    : (r: Result<seq<(T, Option<S>)>, Error>)
    ensures r.Success? <==> forall i :: 0 <= i < |rows| ==> DecodeRow(bs, decode, rows[i]).Success?
    ensures r.Success? ==> |r.value| == |rows|
    ensures r.Success? ==> forall i :: 0 <= i < |rows| ==> r.value[i] == DecodeRow(bs, decode, rows[i]).value
    ensures r.Failure? ==> exists i ::
      && 0 <= i < |rows|
      && (forall j :: 0 <= j < i ==> DecodeRow(bs, decode, rows[j]).Success?)
      && DecodeRow(bs, decode, rows[i]) == Failure(r.error)
  {
    if rows == [] then Success([])
    else
      match DecodeRow(bs, decode, rows[0])
      case Failure(e) => Failure(e)
      case Success(x) =>
        match DecodeRows(bs, decode, rows[1..])
        case Failure(e) =>
          assert exists i ::
            && 0 <= i < |rows|
            && (forall j :: 0 <= j < i ==> DecodeRow(bs, decode, rows[j]).Success?)
            && DecodeRow(bs, decode, rows[i]) == Failure(e) by {
            var k :| && 0 <= k < |rows[1..]|
                     && (forall j :: 0 <= j < k ==> DecodeRow(bs, decode, rows[1..][j]).Success?)
                     && DecodeRow(bs, decode, rows[1..][k]) == Failure(e);
            assert rows[1..][k] == rows[k + 1];
            assert forall j :: 0 < j < k + 1 ==> rows[j] == rows[1..][j - 1];
          }
          Failure(e)
        case Success(xs) =>
          assert forall i :: 0 < i < |rows| ==> rows[i] == rows[1..][i - 1];
          Success([x] + xs)
  }

  /** The value part of `decode_block_scores(db, *blocks)` over the fetched
      rows. */
  function DecodeBlockScores<T, R, S>(blocks: seq<Block<R>>, decode: (R, seq<byte>) -> Result<S, Error>, rows: seq<ScoreRow<T>>)
    : (r: Result<seq<(T, Option<S>)>, Error>)
    ensures (forall i :: 0 <= i < |rows| ==> !rows[i].hasScore) ==> r.Success?
    ensures r.Success? ==> |r.value| == |rows|
  {
    DecodeRows(BlockMap(blocks), decode, rows)
  }

  /** Every row keeps its team, and an unjudged row carries no score. */
  lemma DecodedRowTeam<T, R, S>(blocks: seq<Block<R>>, decode: (R, seq<byte>) -> Result<S, Error>,
                                rows: seq<ScoreRow<T>>, i: nat)
    requires DecodeBlockScores(blocks, decode, rows).Success? && i < |rows|
    ensures DecodeBlockScores(blocks, decode, rows).value[i].0 == rows[i].team
    ensures !rows[i].hasScore ==> DecodeBlockScores(blocks, decode, rows).value[i].1 == None
  {
    assert DecodeRow(BlockMap(blocks), decode, rows[i]).Success?;
  }

  /** A judged row carries its bytes decoded by the ruleset of the last
      listed block with the row's block id. */
  lemma DecodedRowUsesItsBlock<T, R, S>(blocks: seq<Block<R>>, decode: (R, seq<byte>) -> Result<S, Error>,
                                        rows: seq<ScoreRow<T>>, i: nat, k: nat)
    requires DecodeBlockScores(blocks, decode, rows).Success? && i < |rows| && rows[i].hasScore
    requires k < |blocks| && blocks[k].id == rows[i].blockId && LastWithId(blocks, k)
    ensures decode(blocks[k].ruleset, rows[i].data).Success?
    ensures DecodeBlockScores(blocks, decode, rows).value[i].1 == Some(decode(blocks[k].ruleset, rows[i].data).value)
  {
    BlockMapLastWins(blocks, k);
    assert DecodeRow(BlockMap(blocks), decode, rows[i]).Success?;
  }

  /** Decoding fails (with KeyError, or the first decode error) when a
      judged row names a block that is not listed. */
  lemma ScoredRowNeedsItsBlock<T, R, S>(blocks: seq<Block<R>>, decode: (R, seq<byte>) -> Result<S, Error>,
                                        rows: seq<ScoreRow<T>>, i: nat)
    requires i < |rows| && rows[i].hasScore
    requires forall k :: 0 <= k < |blocks| ==> blocks[k].id != rows[i].blockId
    ensures DecodeBlockScores(blocks, decode, rows).Failure?
  {
    BlockMapKeys(blocks, rows[i].blockId);
    assert DecodeRow(BlockMap(blocks), decode, rows[i]).Failure?;
  }

  // ---------------------------------------------------------------------
  // aggregate_scores

  /** A team's scores, in input order: each of them is a score of that
      team in the input. */
  function Group<T(==), S>(scores: seq<(T, S)>, team: T): (g: seq<S>)
    ensures |g| <= |scores|
  {
    if scores == [] then []
    else
      var n := |scores| - 1;
      Group(scores[..n], team) + (if scores[n].0 == team then [scores[n].1] else [])
  }

  /** Each score in a team's group is one the input pairs with that team. */
  lemma {:induction false} GroupComesFromInput<T, S>(scores: seq<(T, S)>, team: T)
    ensures forall j :: 0 <= j < |Group(scores, team)| ==> (team, Group(scores, team)[j]) in scores
    decreases |scores|
  {
    if scores != [] {
      var n := |scores| - 1;
      GroupComesFromInput(scores[..n], team);
      assert forall p :: p in scores[..n] ==> p in scores;
    }
  }

  /** The teams of the input, each once, in order of first appearance. */
  function Teams<T(==), S>(scores: seq<(T, S)>): (ts: seq<T>)
    ensures |ts| <= |scores|
  {
    if scores == [] then []
    else
      var p := Teams(scores[..|scores| - 1]);
      var t := scores[|scores| - 1].0;
      if t in p then p else p + [t]
  }

  /** Every input team is listed, only input teams are, and none twice. */
  lemma {:induction false} TeamsAreDistinctInputTeams<T, S>(scores: seq<(T, S)>)
    ensures forall i :: 0 <= i < |scores| ==> scores[i].0 in Teams(scores)
    ensures forall t :: t in Teams(scores) ==> exists i :: 0 <= i < |scores| && scores[i].0 == t
    ensures forall i, j :: 0 <= i < j < |Teams(scores)| ==> Teams(scores)[i] != Teams(scores)[j]
    decreases |scores|
  {
    if scores != [] {
      var n := |scores| - 1;
      TeamsAreDistinctInputTeams(scores[..n]);
      assert forall i :: 0 <= i < n ==> scores[..n][i] == scores[i];
    }
  }

  lemma {:induction false} GroupOfAbsent<T, S>(scores: seq<(T, S)>, team: T)
    requires forall i :: 0 <= i < |scores| ==> scores[i].0 != team
    ensures Group(scores, team) == []
  {
    if scores != [] {
      var n := |scores| - 1;
      GroupOfAbsent(scores[..n], team);
    }
  }

  /** Group and team list of a prefix one longer. */
  lemma PrefixStep<T, S>(scores: seq<(T, S)>, i: nat)
    requires i < |scores|
    ensures forall t :: Group(scores[..i + 1], t) == Group(scores[..i], t) + (if scores[i].0 == t then [scores[i].1] else [])
    ensures Teams(scores[..i + 1]) == if scores[i].0 in Teams(scores[..i]) then Teams(scores[..i]) else Teams(scores[..i]) + [scores[i].0]
  {
    assert scores[..i + 1][..i] == scores[..i];
  }

  /** A team not yet seen has no scores so far. */
  lemma NewTeamHasNoScores<T, S>(scores: seq<(T, S)>, team: T)
    requires team !in Teams(scores)
    ensures Group(scores, team) == []
  {
    TeamsAreDistinctInputTeams(scores);
    GroupOfAbsent(scores, team);
  }

  /** The grouping loop of `aggregate_scores`: every team's scores, in
      input order, and the teams in order of first appearance. */
  method GroupScores<T(==), S>(scores: seq<(T, S)>) returns (grouped: map<T, seq<S>>, teams: seq<T>)
    ensures teams == Teams(scores)
    ensures forall t :: t in grouped <==> t in teams
    ensures forall t :: t in grouped ==> grouped[t] == Group(scores, t)
  {
    grouped := map[];
    teams := [];
    var i := 0;
    while i < |scores|
      invariant 0 <= i <= |scores|
      invariant teams == Teams(scores[..i])
      invariant forall t :: t in grouped <==> t in teams
      invariant forall t :: t in grouped ==> grouped[t] == Group(scores[..i], t)
    {
      var (team, score) := scores[i];
      PrefixStep(scores, i);
      if team in grouped {
        grouped := grouped[team := grouped[team] + [score]];
      } else {
        NewTeamHasNoScores(scores[..i], team);
        grouped := grouped[team := [score]];
        teams := teams + [team];
      }
      i := i + 1;
    }
    assert scores[..|scores|] == scores;
  }

  /** `aggregate_scores(scores, aggregate)`: one entry per team, its
      scores in input order folded by `aggregate`; `teams` is the order
      of the entries. */
  method AggregateScores<T(==), S, A>(scores: seq<(T, S)>, aggregate: seq<S> -> A) returns (ret: map<T, A>, teams: seq<T>)
    ensures teams == Teams(scores)
    ensures forall t :: t in ret <==> t in teams
    ensures forall t :: t in ret ==> ret[t] == aggregate(Group(scores, t))
  {
    var grouped;
    grouped, teams := GroupScores(scores);
    ret := map[];
    var j := 0;
    while j < |teams|
      invariant 0 <= j <= |teams|
      invariant forall t :: t in ret <==> t in teams[..j]
      invariant forall t :: t in ret ==> ret[t] == aggregate(Group(scores, t))
    {
      ret := ret[teams[j] := aggregate(grouped[teams[j]])];
      assert teams[..j + 1] == teams[..j] + [teams[j]];
      j := j + 1;
    }
    assert teams[..|teams|] == teams;
  }

  /** The group sizes of the listed teams. */
  function GroupSizes<T(==), S>(scores: seq<(T, S)>, teams: seq<T>): nat {
    if teams == [] then 0
    else GroupSizes(scores, teams[..|teams| - 1]) + |Group(scores, teams[|teams| - 1])|
  }

  lemma {:induction false} GroupSizesStep<T, S>(scores: seq<(T, S)>, x: (T, S), teams: seq<T>)
    requires forall i, j :: 0 <= i < j < |teams| ==> teams[i] != teams[j]
    ensures GroupSizes(scores + [x], teams) == GroupSizes(scores, teams) + (if x.0 in teams then 1 else 0)
    decreases |teams|
  {
    if teams != [] {
      var n := |teams| - 1;
      GroupSizesStep(scores, x, teams[..n]);
      assert (scores + [x])[..|scores|] == scores;
      assert x.0 in teams <==> x.0 in teams[..n] || x.0 == teams[n];
    }
  }

  /** Every score lands in exactly one group: the group sizes add up to
      the number of scores. */
  lemma {:induction false} GroupsPartitionScores<T, S>(scores: seq<(T, S)>)
    ensures GroupSizes(scores, Teams(scores)) == |scores|
    decreases |scores|
  {
    if scores != [] {
      var n := |scores| - 1;
      var p := scores[..n];
      var x := scores[n];
      assert scores == p + [x];
      GroupsPartitionScores(p);
      TeamsAreDistinctInputTeams(p);
      GroupSizesStep(p, x, Teams(p));
      if x.0 !in Teams(p) {
        var teams := Teams(p) + [x.0];
        assert teams[..|teams| - 1] == Teams(p);
        GroupOfAbsent(p, x.0);
      }
    }
  }

  // ---------------------------------------------------------------------
  // sort_ranking

  /** Neither value is below the other. */
  predicate Tied<K>(less: (K, K) -> bool, a: K, b: K) {
    !less(a, b) && !less(b, a)
  }

  /** Best first: no entry is below a later one. */
  predicate Descending<T, K>(less: (K, K) -> bool, xs: seq<(T, K)>) {
    forall i, j :: 0 <= i < j < |xs| ==> !less(xs[i].1, xs[j].1)
  }

  /** Places `x`, which came before every entry of `s`, after the entries
      strictly above it. */
  function InsertDesc<T, K>(less: (K, K) -> bool, x: (T, K), s: seq<(T, K)>): (r: seq<(T, K)>)
    ensures |r| == |s| + 1
    ensures r[0] == x || (s != [] && r[0] == s[0])
  {
    if s == [] then [x]
    else if less(x.1, s[0].1) then [s[0]] + InsertDesc(less, x, s[1..])
    else [x] + s
  }

  /** `sorted(groups, key=lambda x: x[1], reverse=True)`. */
  function SortRanking<T, K>(less: (K, K) -> bool, groups: seq<(T, K)>): (r: seq<(T, K)>)
    ensures |r| == |groups|
  {
    if groups == [] then [] else InsertDesc(less, groups[0], SortRanking(less, groups[1..]))
  }

  lemma {:induction false} InsertDescPermutes<T, K>(less: (K, K) -> bool, x: (T, K), s: seq<(T, K)>)
    ensures multiset(InsertDesc(less, x, s)) == multiset{x} + multiset(s)
    decreases |s|
  {
    if s != [] && less(x.1, s[0].1) {
      InsertDescPermutes(less, x, s[1..]);
      assert s == [s[0]] + s[1..];
    }
  }

  /** The sorted standings hold exactly the input entries. */
  lemma {:induction false} SortRankingPermutes<T, K>(less: (K, K) -> bool, groups: seq<(T, K)>)
    ensures multiset(SortRanking(less, groups)) == multiset(groups)
    decreases |groups|
  {
    if groups != [] {
      SortRankingPermutes(less, groups[1..]);
      InsertDescPermutes(less, groups[0], SortRanking(less, groups[1..]));
      assert groups == [groups[0]] + groups[1..];
    }
  }

  lemma {:induction false} InsertDescDescending<T, K(!new)>(less: (K, K) -> bool, x: (T, K), s: seq<(T, K)>)
    requires StrictWeakOrder(less) && Descending(less, s)
    ensures Descending(less, InsertDesc(less, x, s))
    decreases |s|
  {
    if s == [] {
    } else if less(x.1, s[0].1) {
      InsertDescDescending(less, x, s[1..]);
      var tail := InsertDesc(less, x, s[1..]);
      InsertDescPermutes(less, x, s[1..]);
      var r := [s[0]] + tail;
      forall j | 0 < j < |r|
        ensures !less(s[0].1, r[j].1)
      {
        assert r[j] == tail[j - 1];
        assert r[j] in multiset(tail);
        if r[j] != x {
          assert r[j] in multiset(s[1..]);
          var k :| 0 <= k < |s[1..]| && s[1..][k] == r[j];
          assert s[k + 1] == r[j];
        }
      }
    } else {
      var r := [x] + s;
      forall j | 0 < j < |r|
        ensures !less(x.1, r[j].1)
      {
        assert r[j] == s[j - 1];
        assert !less(s[0].1, s[j - 1].1) || j == 1;
      }
    }
  }

  /** The sorted standings are best first. */
  lemma {:induction false} SortRankingDescending<T, K(!new)>(less: (K, K) -> bool, groups: seq<(T, K)>)
    requires StrictWeakOrder(less)
    ensures Descending(less, SortRanking(less, groups))
    decreases |groups|
  {
    if groups != [] {
      SortRankingDescending(less, groups[1..]);
      InsertDescDescending(less, groups[0], SortRanking(less, groups[1..]));
    }
  }

  /** The entries whose rank value is tied with `k`, in order. */
  function TiedWith<T, K>(less: (K, K) -> bool, k: K, xs: seq<(T, K)>): seq<(T, K)> {
    if xs == [] then []
    else (if Tied(less, xs[0].1, k) then [xs[0]] else []) + TiedWith(less, k, xs[1..])
  }

  lemma {:induction false} TiedWithConcat<T, K>(less: (K, K) -> bool, k: K, a: seq<(T, K)>, b: seq<(T, K)>)
    ensures TiedWith(less, k, a + b) == TiedWith(less, k, a) + TiedWith(less, k, b)
    decreases |a|
  {
    if a == [] {
      assert a + b == b;
    } else {
      assert (a + b)[0] == a[0];
      assert (a + b)[1..] == a[1..] + b;
      TiedWithConcat(less, k, a[1..], b);
    }
  }

  lemma {:induction false} InsertDescStable<T, K(!new)>(less: (K, K) -> bool, k: K, x: (T, K), s: seq<(T, K)>)
    requires StrictWeakOrder(less)
    ensures TiedWith(less, k, InsertDesc(less, x, s)) == TiedWith(less, k, [x] + s)
    decreases |s|
  {
    if s != [] && less(x.1, s[0].1) {
      var y := s[0];
      InsertDescStable(less, k, x, s[1..]);
      TiedWithConcat(less, k, [y], InsertDesc(less, x, s[1..]));
      TiedWithConcat(less, k, [x], s[1..]);
      TiedWithConcat(less, k, [y], [x] + s[1..]);
      TiedWithConcat(less, k, [x], s);
      TiedWithConcat(less, k, [y], s[1..]);
      assert s == [y] + s[1..];
      assert [y] + ([x] + s[1..]) == [y, x] + s[1..];
      TiedWithConcat(less, k, [y], [x]);
      TiedWithConcat(less, k, [x], [y]);
      TiedWithConcat(less, k, [y, x], s[1..]);
      TiedWithConcat(less, k, [x, y], s[1..]);
      assert [x] + s == [x, y] + s[1..];
      // x is strictly below y, so they are not both tied with k
      assert !(Tied(less, x.1, k) && Tied(less, y.1, k));
    }
  }

  /** The sort is stable: entries with tied rank values keep their input
      order. */
  lemma {:induction false} SortRankingStable<T, K(!new)>(less: (K, K) -> bool, k: K, groups: seq<(T, K)>)
    requires StrictWeakOrder(less)
    ensures TiedWith(less, k, SortRanking(less, groups)) == TiedWith(less, k, groups)
    decreases |groups|
  {
    if groups != [] {
      SortRankingStable(less, k, groups[1..]);
      InsertDescStable(less, k, groups[0], SortRanking(less, groups[1..]));
      TiedWithConcat(less, k, [groups[0]], SortRanking(less, groups[1..]));
      TiedWithConcat(less, k, [groups[0]], groups[1..]);
      assert groups == [groups[0]] + groups[1..];
    }
  }
}
