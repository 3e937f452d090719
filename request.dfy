/**
 * The query parameter normalizer: the client's effective limit and offset,
 * and the parameter list sent upstream.
 */
module Request {

  import opened Wrappers
  import opened JsValues
  import opened UrlParams
  import opened Sequences

  /**
   * The client's query string. Each parameter is absent or one string
   * (repeated parameters, which arrive as arrays, are not modelled).
   */
  datatype Query = Query(
    filter: Option<string>,
    limit: Option<string>,
    offset: Option<string>,
    afterDate: Option<string>,
    beforeDate: Option<string>,
    status: Option<string>,
    includeEditLink: Option<string>,
    sort: Option<string>)

  /** JavaScript truthiness of a query parameter: present and non-empty. */
  predicate Truthy(param: Option<string>)
  {
    param.Some? && param.value != ""
  }

  /** The page size used upstream, and the client's default page size. */
  const PAGE_SIZE: nat := 150

  /**
   * The client's number: the parameter read with `Number` when it is
   * truthy and does not read as NaN, and `fallback` otherwise.
   */
  function ClientNumber(param: Option<string>, fallback: real): real
  {
    if Truthy(param) && StringToNumber(param.value).Num? then StringToNumber(param.value).value else fallback
  }

  function ClientLimit(query: Query): real
  {
    ClientNumber(query.limit, 150.0)
  }

  function ClientOffset(query: Query): real
  {
    ClientNumber(query.offset, 0.0)
  }

  /** The value a pass-through parameter is forwarded with: itself when truthy. */
  function Passed(param: Option<string>): Option<string>
  {
    if Truthy(param) then param else None
  }

  /** The names that may be sent upstream, in the order they are added. */
  const KEY_ORDER: seq<string> := ["limit", "offset", "afterDate", "beforeDate", "status", "includeEditLink", "sort"]

  /**
   * Each name the service may send upstream, in order, with the value it
   * sends: a fixed "150" for the limit and "0" for the offset (only when the
   * client gave them), and the pass-through filters as the client gave them.
   */
  function Candidates(query: Query): (cs: seq<(string, Option<string>)>)
    ensures |cs| == |KEY_ORDER| && forall i :: 0 <= i < |cs| ==> cs[i].0 == KEY_ORDER[i]
  {
    [ ("limit", LimitSent(query)),
      ("offset", OffsetSent(query)),
      ("afterDate", Passed(query.afterDate)),
      ("beforeDate", Passed(query.beforeDate)),
      ("status", Passed(query.status)),
      ("includeEditLink", Passed(query.includeEditLink)),
      ("sort", Passed(query.sort)) ]
  }

  /** The entry for one name, when it has a value. */
  function Piece(key: string, value: Option<string>): seq<Entry>
  {
    if value.Some? then [(key, value.value)] else []
  }

  /** The entries for the candidates that have a value, in order. */
  function Present(cs: seq<(string, Option<string>)>): seq<Entry>
  {
    if cs == [] then [] else Piece(cs[0].0, cs[0].1) + Present(cs[1..])
  }

  /** The value sent upstream for "limit": a fixed "150" when the client gave one. */
  function LimitSent(query: Query): Option<string>
  {
    if Truthy(query.limit) then Some("150") else None
  }

  /** The value sent upstream for "offset": a fixed "0" when the client gave one. */
  function OffsetSent(query: Query): Option<string>
  {
    if Truthy(query.offset) then Some("0") else None
  }

  /** The parameter list sent upstream, one piece per candidate name. */
  function UpstreamEntries(query: Query): seq<Entry>
  {
    Piece("limit", LimitSent(query))
    + Piece("offset", OffsetSent(query))
    + Piece("afterDate", Passed(query.afterDate))
    + Piece("beforeDate", Passed(query.beforeDate))
    + Piece("status", Passed(query.status))
    + Piece("includeEditLink", Passed(query.includeEditLink))
    + Piece("sort", Passed(query.sort))
  }

  /**
   * `param?.toString() || fallbackText`, read with `Number`, NaN replaced by
   * `fallback`. When the fallback text reads as the fallback value, this is
   * the client's number.
   */
  method ReadClientNumber(param: Option<string>, fallbackText: string, fallback: real) returns (n: real)
    requires StringToNumber(fallbackText) == Num(fallback)
    ensures n == ClientNumber(param, fallback)
  {
    var text := if Truthy(param) then param.value else fallbackText;
    var parsed := StringToNumber(text);
    n := if parsed.NaN? then fallback else parsed.value;
  }

  /** The client's limit, read as the service reads it, with "150" as the default text. */
  method ReadLimit(query: Query) returns (limit: real)
    ensures limit == ClientLimit(query)
  {
    DefaultTextsRead();
    limit := ReadClientNumber(query.limit, "150", 150.0);
  }

  /** The client's offset, read as the service reads it, with "0" as the default text. */
  method ReadOffset(query: Query) returns (offset: real)
    ensures offset == ClientOffset(query)
  {
    DefaultTextsRead();
    offset := ReadClientNumber(query.offset, "0", 0.0);
  }

  /** `value && params.append(key, value)`: appends the pair when there is a value to send. */
  method AppendPresent(params: SearchParams, key: string, value: Option<string>)
    modifies params
    ensures params.entries == old(params.entries) + Piece(key, value)
  {
    if value.Some? {
      params.Append(key, value.value);
    }
  }

  method GetFilloutUrlSearchParamsFromRequest(query: Query) returns (params: SearchParams, limit: real, offset: real)
    ensures fresh(params)
    ensures params.entries == UpstreamEntries(query)
    ensures limit == ClientLimit(query) && offset == ClientOffset(query)
  {
    params := new SearchParams();
    limit := ReadLimit(query);
    AppendPresent(params, "limit", LimitSent(query));
    assert params.entries == Piece("limit", LimitSent(query));
    offset := ReadOffset(query);
    AppendPresent(params, "offset", OffsetSent(query));
    AppendPresent(params, "afterDate", Passed(query.afterDate));
    AppendPresent(params, "beforeDate", Passed(query.beforeDate));
    AppendPresent(params, "status", Passed(query.status));
    AppendPresent(params, "includeEditLink", Passed(query.includeEditLink));
    AppendPresent(params, "sort", Passed(query.sort));
  }

  // ---------------------------------------------------------------------
  // Properties

  lemma {:induction false} PresentOfConcat(a: seq<(string, Option<string>)>, b: seq<(string, Option<string>)>)
    ensures Present(a + b) == Present(a) + Present(b)
    decreases |a|
  {
    if a == [] {
      assert a + b == b;
    } else {
      assert (a + b)[0] == a[0] && (a + b)[1..] == a[1..] + b;
      PresentOfConcat(a[1..], b);
      assert Piece(a[0].0, a[0].1) + (Present(a[1..]) + Present(b)) == (Piece(a[0].0, a[0].1) + Present(a[1..])) + Present(b);
    }
  }

  /** Taking one more candidate adds its piece at the end. */
  lemma PresentOfPrefix(cs: seq<(string, Option<string>)>, i: nat)
    requires 0 < i <= |cs|
    ensures Present(cs[..i]) == Present(cs[..i - 1]) + Piece(cs[i - 1].0, cs[i - 1].1)
  {
    assert cs[..i] == cs[..i - 1] + [cs[i - 1]];
    PresentOfConcat(cs[..i - 1], [cs[i - 1]]);
    assert [cs[i - 1]][1..] == [];
    assert Piece(cs[i - 1].0, cs[i - 1].1) + [] == Piece(cs[i - 1].0, cs[i - 1].1);
  }

  /** Taking three more candidates adds their three pieces at the end. */
  lemma PresentOfThreeMore(cs: seq<(string, Option<string>)>, i: nat)
    requires i + 3 <= |cs|
    ensures Present(cs[..i + 3]) ==
            Present(cs[..i]) + Piece(cs[i].0, cs[i].1) + Piece(cs[i + 1].0, cs[i + 1].1) + Piece(cs[i + 2].0, cs[i + 2].1)
  {
    PresentOfPrefix(cs, i + 1);
    PresentOfPrefix(cs, i + 2);
    PresentOfPrefix(cs, i + 3);
  }

  /** `Present` of the first four candidates is their four pieces, in order. */
  lemma PresentOfFour(cs: seq<(string, Option<string>)>)
    requires |cs| >= 4
    ensures Present(cs[..4]) == Piece(cs[0].0, cs[0].1) + Piece(cs[1].0, cs[1].1) + Piece(cs[2].0, cs[2].1)
                                + Piece(cs[3].0, cs[3].1)
  {
    var p0 := Piece(cs[0].0, cs[0].1);
    assert Present(cs[..1]) == p0 by {
      PresentOfPrefix(cs, 1);
      assert cs[..0] == [];
      assert [] + p0 == p0;
    }
    PresentOfThreeMore(cs, 1);
  }

  /** `Present` of seven candidates is their seven pieces, in order. */
  lemma PresentOfSeven(cs: seq<(string, Option<string>)>)
    requires |cs| == 7
    ensures Present(cs) == Piece(cs[0].0, cs[0].1) + Piece(cs[1].0, cs[1].1) + Piece(cs[2].0, cs[2].1)
                           + Piece(cs[3].0, cs[3].1) + Piece(cs[4].0, cs[4].1) + Piece(cs[5].0, cs[5].1)
                           + Piece(cs[6].0, cs[6].1)
  {
    PresentOfFour(cs);
    PresentOfThreeMore(cs, 4);
    assert cs[..7] == cs;
  }

  /** The list sent upstream is the present candidates, in order. */
  lemma UpstreamEntriesArePresentCandidates(query: Query)
    ensures UpstreamEntries(query) == Present(Candidates(query))
  {
    PresentOfSeven(Candidates(query));
  }

  /** The default texts "150" and "0" read as 150 and 0. */
  lemma DefaultTextsRead()
    ensures StringToNumber("150") == Num(150.0)
    ensures StringToNumber("0") == Num(0.0)
  {
    assert NatToString(150) == "150";
    NumberOfNatToString(150);
    assert NatToString(0) == "0";
    NumberOfNatToString(0);
  }

  /** A whole-number limit written in decimal is read back as that number. */
  lemma DecimalLimitIsRead(query: Query, limit: nat)
    requires query.limit == Some(NatToString(limit))
    ensures ClientLimit(query) == limit as real
  {
    NumberOfNatToString(limit);
  }

  /** A whole-number offset written in decimal is read back as that number. */
  lemma DecimalOffsetIsRead(query: Query, offset: nat)
    requires query.offset == Some(NatToString(offset))
    ensures ClientOffset(query) == offset as real
  {
    NumberOfNatToString(offset);
  }

  /** No name appears twice among the candidates. */
  predicate DistinctKeys(cs: seq<(string, Option<string>)>)
  {
    forall i, j :: 0 <= i < j < |cs| ==> cs[i].0 != cs[j].0
  }

  lemma KeyOrderDistinct()
    ensures forall i, j :: 0 <= i < j < |KEY_ORDER| ==> KEY_ORDER[i] != KEY_ORDER[j]
  {
    // the names differ in length or in their first character
    forall i, j | 0 <= i < j < |KEY_ORDER| ensures KEY_ORDER[i] != KEY_ORDER[j] {
      assert |KEY_ORDER[i]| != |KEY_ORDER[j]| || KEY_ORDER[i][0] != KEY_ORDER[j][0];
    }
  }

  /** With distinct names, looking a candidate's name up gives its value. */
  lemma {:induction false} LookupPresent(cs: seq<(string, Option<string>)>, i: nat)
    requires DistinctKeys(cs) && i < |cs|
    ensures Lookup(Present(cs), cs[i].0) == cs[i].1
    decreases |cs|
  {
    var head := Piece(cs[0].0, cs[0].1);
    LookupOfConcat(head, Present(cs[1..]), cs[i].0);
    if i > 0 {
      assert cs[1..][i - 1] == cs[i];
      LookupPresent(cs[1..], i - 1);
    } else {
      assert forall j :: 0 <= j < |cs[1..]| ==> cs[1..][j].0 != cs[0].0 by {
        forall j | 0 <= j < |cs[1..]| ensures cs[1..][j].0 != cs[0].0 {
          assert cs[1..][j] == cs[j + 1];
        }
      }
      LookupAbsent(cs[1..], cs[0].0);
    }
  }

  lemma {:induction false} LookupAbsent(cs: seq<(string, Option<string>)>, key: string)
    requires forall j :: 0 <= j < |cs| ==> cs[j].0 != key
    ensures Lookup(Present(cs), key) == None
    decreases |cs|
  {
    if cs != [] {
      var head := Piece(cs[0].0, cs[0].1);
      LookupOfConcat(head, Present(cs[1..]), key);
      assert forall j :: 0 <= j < |cs[1..]| ==> cs[1..][j] == cs[j + 1];
      LookupAbsent(cs[1..], key);
    }
  }

  /** The names of the entries keep the order of the candidates. */
  lemma {:induction false} PresentKeepsOrder(cs: seq<(string, Option<string>)>)
    ensures IsSubsequence(Keys(Present(cs)), Keys(cs))
    decreases |cs|
  {
    if cs != [] {
      PresentKeepsOrder(cs[1..]);
      assert Keys(cs) == [cs[0].0] + Keys(cs[1..]);
      if cs[0].1.Some? {
        assert Present(cs) == [(cs[0].0, cs[0].1.value)] + Present(cs[1..]);
        assert Keys(Present(cs)) == [cs[0].0] + Keys(Present(cs[1..]));
        SubsequenceConsBoth(Keys(Present(cs[1..])), cs[0].0, Keys(cs[1..]));
      } else {
        assert Present(cs) == [] + Present(cs[1..]);
        assert Keys(Present(cs)) == Keys(Present(cs[1..]));
        SubsequenceOfLonger(Keys(Present(cs[1..])), cs[0].0, Keys(cs[1..]));
      }
    }
  }

  /**
   * Upstream receives "limit=150" exactly when the client gave a limit and
   * "offset=0" exactly when it gave an offset (the client's own values never
   * reach it); the pass-through filters arrive verbatim exactly when truthy;
   * and the names come in the fixed order.
   */
  lemma UpstreamEntriesForwarding(query: Query)
    ensures Lookup(UpstreamEntries(query), "limit") == if Truthy(query.limit) then Some("150") else None
    ensures Lookup(UpstreamEntries(query), "offset") == if Truthy(query.offset) then Some("0") else None
    ensures Lookup(UpstreamEntries(query), "afterDate") == Passed(query.afterDate)
    ensures Lookup(UpstreamEntries(query), "beforeDate") == Passed(query.beforeDate)
    ensures Lookup(UpstreamEntries(query), "status") == Passed(query.status)
    ensures Lookup(UpstreamEntries(query), "includeEditLink") == Passed(query.includeEditLink)
    ensures Lookup(UpstreamEntries(query), "sort") == Passed(query.sort)
    ensures IsSubsequence(Keys(UpstreamEntries(query)), KEY_ORDER)
  {
    var cs := Candidates(query);
    UpstreamEntriesArePresentCandidates(query);
    KeyOrderDistinct();
    assert DistinctKeys(cs);
    LookupPresent(cs, 0);
    LookupPresent(cs, 1);
    LookupPresent(cs, 2);
    LookupPresent(cs, 3);
    LookupPresent(cs, 4);
    LookupPresent(cs, 5);
    LookupPresent(cs, 6);
    PresentKeepsOrder(cs);
    assert Keys(cs) == KEY_ORDER;
  }

  lemma {:induction false} LookupOfConcat(a: seq<Entry>, b: seq<Entry>, key: string)
    ensures Lookup(a + b, key) == if Lookup(a, key).Some? then Lookup(a, key) else Lookup(b, key)
    decreases |a|
  {
    if a == [] {
      assert a + b == b;
    } else {
      assert (a + b)[0] == a[0] && (a + b)[1..] == a[1..] + b;
      LookupOfConcat(a[1..], b, key);
    }
  }
}
