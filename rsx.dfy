/** How the command-line helpers read the selectors a user types
    (robostat/rsx/crud.py, robostat/rsx/modify.py): `%12` picks a record by
    id and anything else by name; a single search term is `@name` for a
    name and otherwise a numeric id. The database queries themselves are
    not part of this model. */
module Rsx {
  import opened Common
  import PyInt

  // ---------------------------------------------------------------------
  // _split_selectors

  predicate IsIdSelector(s: string) {
    |s| > 0 && s[0] == '%'
  }

  /** What `_split_selectors(selectors)` returns: the ids of the `%`
      selectors and the other selectors, each list in input order; a `%`
      selector whose rest is not an integer raises ValueError. */
  function Split(selectors: seq<string>): (r: Result<(seq<int>, seq<string>), Error>)
    ensures r.Failure? ==> r.error == ValueError
    ensures r.Success? ==> |r.value.0| + |r.value.1| == |selectors|
  {
    if selectors == [] then Success(([], []))
    else
      match Split(selectors[..|selectors| - 1])
      case Failure(e) => Failure(e)
      case Success((ids, names)) =>
        var s := selectors[|selectors| - 1];
        if IsIdSelector(s) then
          match PyInt.ParseInt(s[1..])
          case None => Failure(ValueError)
          case Some(n) => Success((ids + [n], names))
        else
          Success((ids, names + [s]))
  }

  /** `_split_selectors(selectors)`. */
  method SplitSelectors(selectors: seq<string>) returns (r: Result<(seq<int>, seq<string>), Error>)
    ensures r == Split(selectors)
  {
    var ids: seq<int> := [];
    var names: seq<string> := [];
    var i := 0;
    while i < |selectors|
      invariant 0 <= i <= |selectors|
      invariant Split(selectors[..i]) == Success((ids, names))
    {
      var s := selectors[i];
      assert selectors[..i + 1][..i] == selectors[..i];
      if |s| > 0 && s[0] == '%' {
        var id := PyInt.ParseInt(s[1..]);
        if id.None? {
          SplitFailurePersists(selectors, i + 1);
          return Failure(ValueError);
        }
        ids := ids + [id.value];
      } else {
        names := names + [s];
      }
      i := i + 1;
    }
    assert selectors[..|selectors|] == selectors;
    r := Success((ids, names));
  }

  /** Once a prefix fails, the whole list fails. */
  lemma {:induction false} SplitFailurePersists(selectors: seq<string>, i: nat)
    requires i <= |selectors| && Split(selectors[..i]).Failure?
    ensures Split(selectors).Failure? && Split(selectors).error == ValueError
    decreases |selectors| - i
  {
    if i == |selectors| {
      assert selectors[..i] == selectors;
    } else {
      assert selectors[..i + 1][..i] == selectors[..i];
      SplitFailurePersists(selectors, i + 1);
    }
  }

  /** The non-`%` selectors, unchanged and in order. */
  function Names(selectors: seq<string>): (r: seq<string>)
    ensures |r| <= |selectors|
    ensures forall j :: 0 <= j < |r| ==> r[j] in selectors && !IsIdSelector(r[j])
  {
    if selectors == [] then []
    else (if IsIdSelector(selectors[0]) then [] else [selectors[0]]) + Names(selectors[1..])
  }

  /** A selector that is not `%` followed by an integer is refused. */
  predicate IdParses(s: string) {
    IsIdSelector(s) ==> PyInt.ParseInt(s[1..]).Some?
  }

  /** Every `%` selector's rest is an integer. */
  predicate IdsParse(selectors: seq<string>) {
    forall i :: 0 <= i < |selectors| ==> IdParses(selectors[i])
  }

  /** The ids of the `%` selectors, in order. */
  function Ids(selectors: seq<string>): (r: seq<int>)
    requires IdsParse(selectors)
    ensures |r| <= |selectors|
  {
    if selectors == [] then []
    else
      assert forall i :: 0 < i < |selectors| ==> selectors[1..][i - 1] == selectors[i];
      (if IsIdSelector(selectors[0]) then [PyInt.ParseInt(selectors[0][1..]).value] else []) + Ids(selectors[1..])
  }

  lemma {:induction false} NamesConcat(a: seq<string>, b: seq<string>)
    ensures Names(a + b) == Names(a) + Names(b)
    decreases |a|
  {
    if a == [] {
      assert a + b == b;
    } else {
      assert (a + b)[0] == a[0] && (a + b)[1..] == a[1..] + b;
      NamesConcat(a[1..], b);
    }
  }

  lemma AppendAssoc<T>(x: seq<T>, y: seq<T>, z: seq<T>)
    ensures x + (y + z) == x + y + z
  {
  }

  lemma IdsParseConcat(a: seq<string>, b: seq<string>)
    requires IdsParse(a + b)
    ensures IdsParse(a) && IdsParse(b)
  {
    forall i | 0 <= i < |a|
      ensures IdParses(a[i])
    {
      assert (a + b)[i] == a[i];
    }
    forall i | 0 <= i < |b|
      ensures IdParses(b[i])
    {
      assert (a + b)[|a| + i] == b[i];
    }
  }

  lemma {:induction false} IdsConcat(a: seq<string>, b: seq<string>)
    requires IdsParse(a + b)
    ensures IdsParse(a) && IdsParse(b)
    ensures Ids(a + b) == Ids(a) + Ids(b)
    decreases |a|
  {
    IdsParseConcat(a, b);
    if a == [] {
      assert a + b == b;
    } else {
      var tail := a[1..] + b;
      assert (a + b)[0] == a[0] && (a + b)[1..] == tail;
      assert a + b == [a[0]] + tail;
      IdsParseConcat([a[0]], tail);
      IdsConcat(a[1..], b);
      var h := if IsIdSelector(a[0]) then [PyInt.ParseInt(a[0][1..]).value] else [];
      assert Ids(a + b) == h + Ids(tail);
      assert Ids(a) == h + Ids(a[1..]);
      AppendAssoc(h, Ids(a[1..]), Ids(b));
    }
  }

  /** Names of a list that ends in `s`. */
  lemma {:induction false} NamesSnoc(xs: seq<string>)
    requires xs != []
    ensures IsIdSelector(xs[|xs| - 1]) ==> Names(xs) == Names(xs[..|xs| - 1])
    ensures !IsIdSelector(xs[|xs| - 1]) ==> Names(xs) == Names(xs[..|xs| - 1]) + [xs[|xs| - 1]]
  {
    var init, last := xs[..|xs| - 1], xs[|xs| - 1..];
    assert xs == init + last;
    NamesConcat(init, last);
    assert last[1..] == [];
    assert Names(init) + [] == Names(init);
  }

  /** Ids of a list that ends in `s`. */
  lemma {:induction false} IdsSnoc(xs: seq<string>)
    requires xs != [] && IdsParse(xs)
    ensures IdsParse(xs[..|xs| - 1])
    ensures IsIdSelector(xs[|xs| - 1]) ==> Ids(xs) == Ids(xs[..|xs| - 1]) + [PyInt.ParseInt(xs[|xs| - 1][1..]).value]
    ensures !IsIdSelector(xs[|xs| - 1]) ==> Ids(xs) == Ids(xs[..|xs| - 1])
  {
    var init, last := xs[..|xs| - 1], xs[|xs| - 1..];
    assert xs == init + last;
    IdsConcat(init, last);
    assert last[1..] == [];
    assert Ids(init) + [] == Ids(init);
  }

  /** Every `%` selector of a list parses exactly when those of its
      front do and its last one does. */
  lemma {:induction false} IdsParseSnoc(xs: seq<string>)
    requires xs != []
    ensures IdsParse(xs) <==> IdsParse(xs[..|xs| - 1]) && IdParses(xs[|xs| - 1])
  {
    var init, last := xs[..|xs| - 1], xs[|xs| - 1];
    if IdsParse(xs) {
      forall i | 0 <= i < |init|
        ensures IdParses(init[i])
      {
        assert init[i] == xs[i];
      }
    }
    if IdsParse(init) && IdParses(last) {
      forall i | 0 <= i < |xs|
        ensures IdParses(xs[i])
      {
        if i < |init| {
          assert init[i] == xs[i];
        } else {
          assert xs[i] == last;
        }
      }
    }
  }

  /** Splitting succeeds exactly when every `%` selector carries an
      integer, and then gives the ids and the names of the selectors,
      each in input order; every selector lands in exactly one list. */
  lemma {:induction false} SplitMeaning(selectors: seq<string>)
    ensures Split(selectors).Success? <==> IdsParse(selectors)
    ensures Split(selectors).Success? ==> Split(selectors).value == (Ids(selectors), Names(selectors))
    ensures Split(selectors).Success? ==> |Split(selectors).value.0| + |Split(selectors).value.1| == |selectors|
    decreases |selectors|
  {
    if selectors != [] {
      SplitMeaning(selectors[..|selectors| - 1]);
      IdsParseSnoc(selectors);
      NamesSnoc(selectors);
      if IdsParse(selectors) {
        IdsSnoc(selectors);
      }
    }
  }

  /** `%` followed by the decimal form of an id selects that id. */
  lemma IdSelectorRoundTrip(n: int)
    ensures Split(["%" + PyInt.Decimal(n)]) == Success(([n], []))
  {
    var d := PyInt.Decimal(n);
    PyInt.ParseDecimal(n);
    var s := "%" + d;
    assert s[1..] == d && IsIdSelector(s);
    var one: seq<string> := [s];
    assert one[..0] == [];
    assert Split(one[..0]) == Success(([], []));
    var none: seq<int> := [];
    assert none + [n] == [n];
  }

  // ---------------------------------------------------------------------
  // query_named: what a search term selects

  /** A search term selects a record by name or by id. */
  datatype Lookup = ByName(name: string) | ById(id: int)

  const MsgMissingIdentifier := "Missing identifier"

  function MsgNotValidId(srch: string): string {
    "Not a valid id: '" + srch + "'"
  }

  /** The selector reading of `query_named(db, cls, srch)`: an empty term
      is an error, `@name` names a record, anything else must be an
      integer id. */
  function ClassifySelector(srch: string): (r: Result<Lookup, Error>)
    ensures srch == "" <==> r == Failure(RsxError(MsgMissingIdentifier))
    ensures r.Success? && r.value.ByName? <==> srch != "" && srch[0] == '@'
    ensures r.Failure? && srch != "" ==> r.error == RsxError(MsgNotValidId(srch))
    ensures srch != "" && srch[0] != '@' ==> (r.Success? <==> PyInt.ParseInt(srch).Some?)
    ensures r.Success? && r.value.ById? ==> PyInt.ParseInt(srch) == Some(r.value.id)
  {
    if srch == "" then Failure(RsxError(MsgMissingIdentifier))
    else if srch[0] == '@' then Success(ByName(srch[1..]))
    else
      match PyInt.ParseInt(srch)
      case Some(id) => Success(ById(id))
      case None => Failure(RsxError(MsgNotValidId(srch)))
  }

  /** `@` followed by a name looks that name up. */
  lemma NameSelectorRoundTrip(name: string)
    ensures ClassifySelector("@" + name) == Success(ByName(name))
  {
    assert ("@" + name)[1..] == name;
  }

  /** The decimal form of any id looks that id up. */
  lemma IdSearchRoundTrip(n: int)
    ensures ClassifySelector(PyInt.Decimal(n)) == Success(ById(n))
  {
    PyInt.ParseDecimal(n);
    var d := PyInt.Digits(if n < 0 then -n else n);
    assert PyInt.IsDigit(d[0]);
  }

  /** A term that is neither `@name` nor an integer is refused with its
      own text in the message. */
  lemma InvalidIdRefused(srch: string)
    requires srch != "" && srch[0] != '@' && PyInt.ParseInt(srch).None?
    ensures ClassifySelector(srch) == Failure(RsxError(MsgNotValidId(srch)))
  {
  }
}
