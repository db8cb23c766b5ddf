/**
 * The query of the search request that the submit handler of static/app.js assembles:
 * an ordered list of (key, value) pairs built from the form's fields and from the
 * structured address subfields stored when a place was picked.
 */
module SearchQuery {
  import opened Wrappers
  import opened JsText
  import opened PlaceParser

  /** The raw values of the search form's inputs; a missing input reads as "". */
  datatype SearchForm = SearchForm(city: string, permit: string, address: string, dateFrom: string, dateTo: string)

  /** The query keys, in the order in which the handler may append them. */
  datatype ParamKey =
    | Address | City | Permit | DateFrom | DateTo | MaxResults | ScanLimit
    | StreetNumberQ | StreetNameQ | StreetTypeQ | StreetDirQ | ZipQ

  /** The key as it appears in the query string. */
  function KeyName(k: ParamKey): string {
    match k
    case Address => "address"
    case City => "city"
    case Permit => "permit"
    case DateFrom => "date_from"
    case DateTo => "date_to"
    case MaxResults => "max_results"
    case ScanLimit => "scan_limit"
    case StreetNumberQ => "street_number_q"
    case StreetNameQ => "street_name_q"
    case StreetTypeQ => "street_type_q"
    case StreetDirQ => "street_dir_q"
    case ZipQ => "zip_q"
  }

  /** Different keys have different names in the query string, so a key that is sent at
      most once also has its name sent at most once. */
  lemma KeyNameInjective(a: ParamKey, b: ParamKey)
    requires KeyName(a) == KeyName(b)
    ensures a == b
  {
    assert KeyName(a)[|KeyName(a)| - 1] == KeyName(b)[|KeyName(b)| - 1];
  }

  /** The position of a key in the handler's order of appends. */
  function Rank(k: ParamKey): nat {
    match k
    case Address => 0
    case City => 1
    case Permit => 2
    case DateFrom => 3
    case DateTo => 4
    case MaxResults => 5
    case ScanLimit => 6
    case StreetNumberQ => 7
    case StreetNameQ => 8
    case StreetTypeQ => 9
    case StreetDirQ => 10
    case ZipQ => 11
  }

  type Param = (ParamKey, string)

  /** `if (v) params.append(key, v)`. */
  function Optional(key: ParamKey, v: string): (r: seq<Param>)
    ensures forall p :: p in r <==> p == (key, v) && v != ""
  {
    if v != "" then [(key, v)] else []
  }

  /** `params` followed by the pairs appended from the stored subfields, in order. */
  function WithStructured(params: seq<Param>, f: Subfields): seq<Param> {
    params +
    Optional(StreetNumberQ, f.streetNumber) + Optional(StreetNameQ, f.streetName) +
    Optional(StreetTypeQ, f.streetType) + Optional(StreetDirQ, f.streetDir) +
    Optional(ZipQ, f.postalCode)
  }

  /** The form as the handler reads it: address, city and permit trimmed, dates as entered. */
  function Trimmed(form: SearchForm): SearchForm {
    SearchForm(Trim(form.city), Trim(form.permit), Trim(form.address), form.dateFrom, form.dateTo)
  }

  /** The pairs appended from the (trimmed) form and the two fixed limits, in order. */
  function FormParams(t: SearchForm): seq<Param> {
    [(Address, t.address)] +
    Optional(City, t.city) + Optional(Permit, t.permit) +
    Optional(DateFrom, t.dateFrom) + Optional(DateTo, t.dateTo) +
    [(MaxResults, "500")] + [(ScanLimit, "200")]
  }

  /** Reference definition of the query: none when the trimmed address is empty (the form
      reports that the address is required), otherwise the appends in the source's order. */
  function SearchParams(form: SearchForm, parsed: Option<ParseResult>): Option<seq<Param>> {
    if Trim(form.address) == "" then None
    else if parsed.Some? then Some(WithStructured(FormParams(Trimmed(form)), Read(parsed.value)))
    else Some(FormParams(Trimmed(form)))
  }

  /** `if (value) params.append(key, value)`. */
  method AppendIfPresent(params: seq<Param>, key: ParamKey, value: string) returns (next: seq<Param>)
    ensures next == params + Optional(key, value)
  {
    next := params;
    if value != "" {
      next := next + [(key, value)];
    }
  }

  /** The submit handler's query assembly: `params.append` in sequence. */
  method BuildSearchParams(form: SearchForm, parsed: Option<ParseResult>) returns (result: Option<seq<Param>>)
    ensures result == SearchParams(form, parsed)
  {
    var city := Trim(form.city);
    var permit := Trim(form.permit);
    var address := Trim(form.address);
    var df := form.dateFrom;
    var dt := form.dateTo;
    if address == "" {
      return None;
    }
    var params: seq<Param> := [];
    params := params + [(Address, address)];
    assert params == [(Address, address)];
    params := AppendIfPresent(params, City, city);
    params := AppendIfPresent(params, Permit, permit);
    params := AppendIfPresent(params, DateFrom, df);
    params := AppendIfPresent(params, DateTo, dt);
    params := params + [(MaxResults, "500")];
    params := params + [(ScanLimit, "200")];
    if parsed.Some? {
      var f := Read(parsed.value);
      params := AppendIfPresent(params, StreetNumberQ, f.streetNumber);
      params := AppendIfPresent(params, StreetNameQ, f.streetName);
      params := AppendIfPresent(params, StreetTypeQ, f.streetType);
      params := AppendIfPresent(params, StreetDirQ, f.streetDir);
      params := AppendIfPresent(params, ZipQ, f.postalCode);
    }
    return Some(params);
  }

  // ---------- properties ----------

  /** The subfields that the stored parse result shows; none when there is no stored result
      (absent, or not readable as JSON). */
  function StoredFields(parsed: Option<ParseResult>): Subfields {
    if parsed.None? then EmptySubfields else Read(parsed.value)
  }

  /** What each key should carry, given the trimmed form: its fields, the two fixed limits,
      and the stored subfields. */
  function Expected(t: SearchForm, f: Subfields, k: ParamKey): string {
    match k
    case Address => t.address
    case City => t.city
    case Permit => t.permit
    case DateFrom => t.dateFrom
    case DateTo => t.dateTo
    case MaxResults => "500"
    case ScanLimit => "200"
    case StreetNumberQ => f.streetNumber
    case StreetNameQ => f.streetName
    case StreetTypeQ => f.streetType
    case StreetDirQ => f.streetDir
    case ZipQ => f.postalCode
  }

  /** Whether the keys of `ps` appear in strictly increasing rank, all below `bound`, and no
      value is empty; read from the last pair backwards. */
  predicate RankedBelow(ps: seq<Param>, bound: nat)
    decreases |ps|
  {
    ps == [] ||
    (var last := ps[|ps| - 1];
     Rank(last.0) < bound && last.1 != "" && RankedBelow(ps[..|ps| - 1], Rank(last.0)))
  }

  /** What a ranked list is: strictly increasing ranks, all below the bound, no empty value. */
  lemma {:induction false} RankedBelowMeaning(ps: seq<Param>, bound: nat)
    requires RankedBelow(ps, bound)
    ensures forall i, j :: 0 <= i < j < |ps| ==> Rank(ps[i].0) < Rank(ps[j].0)
    ensures forall i :: 0 <= i < |ps| ==> Rank(ps[i].0) < bound && ps[i].1 != ""
    decreases |ps|
  {
    if ps != [] {
      var init := ps[..|ps| - 1];
      RankedBelowMeaning(init, Rank(ps[|ps| - 1].0));
      assert forall i :: 0 <= i < |init| ==> ps[i] == init[i];
    }
  }

  /** A list ranked below one bound is ranked below any larger bound. */
  lemma RankedBelowWeaken(ps: seq<Param>, bound: nat, larger: nat)
    requires RankedBelow(ps, bound) && bound <= larger
    ensures RankedBelow(ps, larger)
  {
  }

  /** One conditional append keeps the list ranked. */
  lemma AppendRanked(ps: seq<Param>, key: ParamKey, v: string)
    requires RankedBelow(ps, Rank(key))
    ensures RankedBelow(ps + Optional(key, v), Rank(key) + 1)
  {
    if v == "" {
      assert ps + Optional(key, v) == ps;
      RankedBelowWeaken(ps, Rank(key), Rank(key) + 1);
    } else {
      assert (ps + [(key, v)])[..|ps|] == ps;
    }
  }

  /** The form's pairs are ranked below the structured keys. */
  lemma FormParamsRanked(t: SearchForm)
    requires t.address != ""
    ensures RankedBelow(FormParams(t), Rank(StreetNumberQ))
  {
    var p1 := [(Address, t.address)];
    AppendRanked(p1, City, t.city);
    var p2 := p1 + Optional(City, t.city);
    AppendRanked(p2, Permit, t.permit);
    var p3 := p2 + Optional(Permit, t.permit);
    AppendRanked(p3, DateFrom, t.dateFrom);
    var p4 := p3 + Optional(DateFrom, t.dateFrom);
    AppendRanked(p4, DateTo, t.dateTo);
    var p5 := p4 + Optional(DateTo, t.dateTo);
    AppendRanked(p5, MaxResults, "500");
    var p6 := p5 + [(MaxResults, "500")];
    AppendRanked(p6, ScanLimit, "200");
  }

  /** The structured pairs keep a list ranked below them ranked. */
  lemma WithStructuredRanked(ps: seq<Param>, f: Subfields)
    requires RankedBelow(ps, Rank(StreetNumberQ))
    ensures RankedBelow(WithStructured(ps, f), Rank(ZipQ) + 1)
  {
    AppendRanked(ps, StreetNumberQ, f.streetNumber);
    var q1 := ps + Optional(StreetNumberQ, f.streetNumber);
    AppendRanked(q1, StreetNameQ, f.streetName);
    var q2 := q1 + Optional(StreetNameQ, f.streetName);
    AppendRanked(q2, StreetTypeQ, f.streetType);
    var q3 := q2 + Optional(StreetTypeQ, f.streetType);
    AppendRanked(q3, StreetDirQ, f.streetDir);
    var q4 := q3 + Optional(StreetDirQ, f.streetDir);
    AppendRanked(q4, ZipQ, f.postalCode);
  }

  /** The form's pairs: a key before the structured ones is sent, with its expected value,
      exactly when that value is not empty; no structured key is sent. */
  lemma FormParamsMembers(t: SearchForm)
    requires t.address != ""
    ensures forall k, v :: (k, v) in FormParams(t) <==>
      Rank(k) < Rank(StreetNumberQ) && v == Expected(t, EmptySubfields, k) && v != ""
  {
    var p1 := [(Address, t.address)];
    assert forall p :: p in p1 <==> p == (Address, t.address);
  }

  /** The structured pairs: a structured key is sent exactly when its subfield is not empty,
      and the pairs before them are kept. */
  lemma WithStructuredMembers(ps: seq<Param>, f: Subfields)
    requires forall k, v :: (k, v) in ps ==> Rank(k) < Rank(StreetNumberQ)
    ensures forall k, v :: (k, v) in WithStructured(ps, f) <==>
      if Rank(k) < Rank(StreetNumberQ) then (k, v) in ps
      else v == Expected(SearchForm("", "", "", "", ""), f, k) && v != ""
  {
  }

  /** The form decides the keys before the structured ones, the subfields the rest. */
  lemma ExpectedSplit(t: SearchForm, f: Subfields, k: ParamKey)
    ensures Rank(k) < Rank(StreetNumberQ) ==> Expected(t, f, k) == Expected(t, EmptySubfields, k)
    ensures Rank(k) >= Rank(StreetNumberQ) ==>
      Expected(t, f, k) == Expected(SearchForm("", "", "", "", ""), f, k)
    ensures Rank(k) >= Rank(StreetNumberQ) && f == EmptySubfields ==> Expected(t, f, k) == ""
  {
  }

  /** With a non-empty trimmed address, the keys of the request follow the handler's order,
      so each appears at most once. */
  lemma SearchParamsOrdered(form: SearchForm, parsed: Option<ParseResult>)
    requires Trim(form.address) != ""
    ensures var ps := SearchParams(form, parsed).value;
      forall i, j :: 0 <= i < j < |ps| ==> Rank(ps[i].0) < Rank(ps[j].0)
  {
    var t := Trimmed(form);
    FormParamsRanked(t);
    if parsed.Some? {
      WithStructuredRanked(FormParams(t), Read(parsed.value));
      RankedBelowMeaning(SearchParams(form, parsed).value, Rank(ZipQ) + 1);
    } else {
      RankedBelowMeaning(SearchParams(form, parsed).value, Rank(StreetNumberQ));
    }
  }

  /** With a non-empty trimmed address, a key is sent, with its expected value, exactly when
      that value is not empty. */
  lemma SearchParamsCarry(form: SearchForm, parsed: Option<ParseResult>)
    requires Trim(form.address) != ""
    ensures var ps := SearchParams(form, parsed).value;
      forall k, v :: (k, v) in ps <==> v == Expected(Trimmed(form), StoredFields(parsed), k) && v != ""
  {
    var t := Trimmed(form);
    var f := StoredFields(parsed);
    var ps := SearchParams(form, parsed).value;
    FormParamsMembers(t);
    if parsed.Some? {
      FormParamsRanked(t);
      RankedBelowMeaning(FormParams(t), Rank(StreetNumberQ));
      WithStructuredMembers(FormParams(t), f);
    }
    forall k, v
      ensures (k, v) in ps <==> v == Expected(t, f, k) && v != ""
    {
      ExpectedSplit(t, f, k);
    }
  }

  /** The request is built exactly when the trimmed address is not empty. It then starts with
      the address; its keys follow the handler's order, so each appears at most once; and a
      key is sent, with its expected value, exactly when that value is not empty. A missing
      stored parse result sends no structured key. */
  lemma SearchParamsMeaning(form: SearchForm, parsed: Option<ParseResult>)
    ensures SearchParams(form, parsed).None? <==> Trim(form.address) == ""
    ensures SearchParams(form, parsed).Some? ==>
      var ps := SearchParams(form, parsed).value;
      && ps[0] == (Address, Trim(form.address))
      && (forall i, j :: 0 <= i < j < |ps| ==> Rank(ps[i].0) < Rank(ps[j].0))
      && (forall k, v :: (k, v) in ps <==> v == Expected(Trimmed(form), StoredFields(parsed), k) && v != "")
  {
    if Trim(form.address) != "" {
      SearchParamsOrdered(form, parsed);
      SearchParamsCarry(form, parsed);
      assert SearchParams(form, parsed).value[0] == FormParams(Trimmed(form))[0];
    }
  }
}
