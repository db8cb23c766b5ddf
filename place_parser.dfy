/**
 * `parsePlaceToSubfields` of static/app.js: turns a geocoder place result into the
 * street number, street name, street type, street direction, postal code, city, state
 * and country fields of the search form.
 *
 * The function first folds the typed address components into one field per category
 * (the LAST component of a category wins), then splits the route into direction,
 * street-type and street-name parts with a token heuristic.
 */
module PlaceParser {
  import opened Wrappers
  import opened JsText

  /** One entry of `address_components`. A missing `long_name` or `short_name` reads as ""
      and a missing `types` as [], which the parser treats exactly like the empty values. */
  datatype AddressComponent = AddressComponent(longName: string, shortName: string, types: seq<string>)

  /** The part of a place result the parser reads: `None` when `address_components` is missing. */
  datatype Place = Place(addressComponents: Option<seq<AddressComponent>>)

  /** The `comps` accumulator, one field per component category. */
  datatype Comps = Comps(
    streetNumber: string, route: string, postalCode: string,
    locality: string, adminAreaLevel1: string, country: string)

  const EmptyComps := Comps("", "", "", "", "", "")

  /** The subfield record the parser returns on its main path. */
  datatype Subfields = Subfields(
    streetNumber: string, streetName: string, streetType: string, streetDir: string,
    postalCode: string, city: string, state: string, country: string)

  const EmptySubfields := Subfields("", "", "", "", "", "", "", "")

  /** The parser's result. Without a place or without components it returns the bare
      accumulator (`Unparsed`), a record of a different shape from the subfield record. */
  datatype ParseResult = Unparsed(comps: Comps) | Parsed(fields: Subfields)

  /** What a reader of the subfield properties sees. The accumulator record has the
      properties `street_number`, `postal_code` and `country`, and no other subfield
      property; a missing property is `undefined`, which every reader turns into "". */
  function Read(r: ParseResult): (s: Subfields)
    ensures r.Parsed? ==> s == r.fields
    ensures r.Unparsed? ==>
      && s.streetName == "" && s.streetType == "" && s.streetDir == "" && s.city == "" && s.state == ""
      && s.streetNumber == r.comps.streetNumber && s.postalCode == r.comps.postalCode
      && s.country == r.comps.country
  {
    match r
    case Unparsed(c) => Subfields(c.streetNumber, "", "", "", c.postalCode, "", "", c.country)
    case Parsed(f) => f
  }

  // ---------- folding the components ----------

  datatype Category = StreetNumber | Route | PostalCode | Locality | AdminAreaLevel1 | Country

  /** Whether component `ac` fills category `cat`. A component without types fills none;
      the tests are independent, so one component may fill several categories, and
      `postal_town` is an alias for `locality`. */
  predicate Fills(ac: AddressComponent, cat: Category) {
    && |ac.types| > 0
    && match cat
       case StreetNumber => "street_number" in ac.types
       case Route => "route" in ac.types
       case PostalCode => "postal_code" in ac.types
       case Locality => "locality" in ac.types || "postal_town" in ac.types
       case AdminAreaLevel1 => "administrative_area_level_1" in ac.types
       case Country => "country" in ac.types
  }

  /** JavaScript's `a || b` on two strings: the empty string counts as absent. */
  function Or(a: string, b: string): string {
    if a != "" then a else b
  }

  /** `short_name` is preferred for the state and the country. */
  predicate PrefersShortName(cat: Category) {
    cat == AdminAreaLevel1 || cat == Country
  }

  /** The name a component gives its category (`long || short || ""`, or the other way round). */
  function NameFor(ac: AddressComponent, cat: Category): (r: string)
    ensures r == ac.longName || r == ac.shortName
    ensures r == "" <==> ac.longName == "" && ac.shortName == ""
    ensures PrefersShortName(cat) && ac.shortName != "" ==> r == ac.shortName
    ensures !PrefersShortName(cat) && ac.longName != "" ==> r == ac.longName
  {
    if PrefersShortName(cat) then Or(ac.shortName, ac.longName) else Or(ac.longName, ac.shortName)
  }

  function Field(c: Comps, cat: Category): string {
    match cat
    case StreetNumber => c.streetNumber
    case Route => c.route
    case PostalCode => c.postalCode
    case Locality => c.locality
    case AdminAreaLevel1 => c.adminAreaLevel1
    case Country => c.country
  }

  /** Reference definition of the accumulator, read from the end of the list: the name
      given by the last component that fills the category, or "" when none does. */
  function CategoryValue(cs: seq<AddressComponent>, cat: Category): string
    decreases |cs|
  {
    if cs == [] then ""
    else if Fills(cs[|cs| - 1], cat) then NameFor(cs[|cs| - 1], cat)
    else CategoryValue(cs[..|cs| - 1], cat)
  }

  /** Last wins: the value of a category is the name from the last component that fills it. */
  lemma {:induction false} CategoryValueLastWins(cs: seq<AddressComponent>, cat: Category, j: nat)
    requires j < |cs| && Fills(cs[j], cat)
    requires forall k :: j < k < |cs| ==> !Fills(cs[k], cat)
    ensures CategoryValue(cs, cat) == NameFor(cs[j], cat)
    decreases |cs|
  {
    if j < |cs| - 1 {
      var init := cs[..|cs| - 1];
      assert init[j] == cs[j];
      CategoryValueLastWins(init, cat, j);
    }
  }

  /** A category no component fills stays empty. */
  lemma {:induction false} CategoryValueUnfilled(cs: seq<AddressComponent>, cat: Category)
    requires forall k :: 0 <= k < |cs| ==> !Fills(cs[k], cat)
    ensures CategoryValue(cs, cat) == ""
    decreases |cs|
  {
    if cs != [] {
      CategoryValueUnfilled(cs[..|cs| - 1], cat);
    }
  }

  /** A component without types changes nothing, wherever it stands in the list. */
  lemma {:induction false} UntypedComponentIgnored(
    before: seq<AddressComponent>, ac: AddressComponent, after: seq<AddressComponent>, cat: Category)
    requires |ac.types| == 0
    ensures CategoryValue(before + [ac] + after, cat) == CategoryValue(before + after, cat)
    decreases |after|
  {
    if after == [] {
      assert before + [ac] + after == before + [ac];
      assert (before + [ac])[..|before|] == before;
      assert before + after == before;
    } else {
      var last := after[|after| - 1];
      var init := after[..|after| - 1];
      assert (before + [ac] + after)[..|before + [ac] + after| - 1] == before + [ac] + init;
      assert (before + after)[..|before + after| - 1] == before + init;
      UntypedComponentIgnored(before, ac, init, cat);
    }
  }

  /** The value of category `cat` after component `ac` is absorbed into `comps`. */
  function Overwrite(comps: Comps, ac: AddressComponent, cat: Category): string {
    if Fills(ac, cat) then NameFor(ac, cat) else Field(comps, cat)
  }

  /** The `forEach` callback: a component with types overwrites every category it fills. */
  method AbsorbComponent(comps: Comps, ac: AddressComponent) returns (next: Comps)
    ensures next.streetNumber == Overwrite(comps, ac, StreetNumber)
    ensures next.route == Overwrite(comps, ac, Route)
    ensures next.postalCode == Overwrite(comps, ac, PostalCode)
    ensures next.locality == Overwrite(comps, ac, Locality)
    ensures next.adminAreaLevel1 == Overwrite(comps, ac, AdminAreaLevel1)
    ensures next.country == Overwrite(comps, ac, Country)
  {
    next := comps;
    if |ac.types| == 0 {
      return;
    }
    var streetNumber, route, postalCode := comps.streetNumber, comps.route, comps.postalCode;
    var locality, adminAreaLevel1, country := comps.locality, comps.adminAreaLevel1, comps.country;
    if "street_number" in ac.types {
      streetNumber := Or(ac.longName, ac.shortName);
    }
    assert streetNumber == Overwrite(comps, ac, StreetNumber);
    if "route" in ac.types {
      route := Or(ac.longName, ac.shortName);
    }
    assert route == Overwrite(comps, ac, Route);
    if "postal_code" in ac.types {
      postalCode := Or(ac.longName, ac.shortName);
    }
    assert postalCode == Overwrite(comps, ac, PostalCode);
    if "locality" in ac.types || "postal_town" in ac.types {
      locality := Or(ac.longName, ac.shortName);
    }
    assert locality == Overwrite(comps, ac, Locality);
    if "administrative_area_level_1" in ac.types {
      adminAreaLevel1 := Or(ac.shortName, ac.longName);
    }
    assert adminAreaLevel1 == Overwrite(comps, ac, AdminAreaLevel1);
    if "country" in ac.types {
      country := Or(ac.shortName, ac.longName);
    }
    next := Comps(streetNumber, route, postalCode, locality, adminAreaLevel1, country);
  }

  /** The `forEach` over the components, each call overwriting fields of the accumulator. */
  method FoldComponents(cs: seq<AddressComponent>) returns (comps: Comps)
    ensures forall cat :: Field(comps, cat) == CategoryValue(cs, cat)
  {
    comps := EmptyComps;
    for i := 0 to |cs|
      invariant comps.streetNumber == CategoryValue(cs[..i], StreetNumber)
      invariant comps.route == CategoryValue(cs[..i], Route)
      invariant comps.postalCode == CategoryValue(cs[..i], PostalCode)
      invariant comps.locality == CategoryValue(cs[..i], Locality)
      invariant comps.adminAreaLevel1 == CategoryValue(cs[..i], AdminAreaLevel1)
      invariant comps.country == CategoryValue(cs[..i], Country)
    {
      assert cs[..i + 1][..i] == cs[..i];
      comps := AbsorbComponent(comps, cs[i]);
    }
    assert cs[..|cs|] == cs;
  }

  // ---------- splitting the route ----------

  /** The street-type vocabulary, full and abbreviated forms. */
  const StreetTypes: seq<string> := [
    "Street", "St", "Avenue", "Ave", "Boulevard", "Blvd", "Road", "Rd", "Lane", "Ln",
    "Drive", "Dr", "Court", "Ct", "Terrace", "Ter", "Place", "Pl", "Way", "Wy",
    "Circle", "Cir", "Trail", "Trl", "Parkway", "Pkwy", "Square", "Sq", "Alley", "Aly"]

  /** The direction vocabulary, compared case-sensitively. */
  const DirTokens: seq<string> := ["N", "S", "E", "W", "NE", "NW", "SE", "SW", "North", "South", "East", "West"]

  /** `list.includes(w)`: whether `w` is an entry of `list`. */
  predicate Contains(list: seq<string>, w: string) {
    list != [] && (list[0] == w || Contains(list[1..], w))
  }

  lemma {:induction false} ContainsIsMembership(list: seq<string>, w: string)
    ensures Contains(list, w) <==> w in list
  {
    if list != [] {
      ContainsIsMembership(list[1..], w);
      assert list == [list[0]] + list[1..];
    }
  }

  /** `vocab.find(tt => tt.toLowerCase() === t.toLowerCase())`: the first entry of the
      vocabulary equal to `t` once both are lower-cased. */
  function FindType(vocab: seq<string>, t: string): (r: Option<string>)
    ensures r.Some? ==> r.value in vocab && LowerCase(r.value) == LowerCase(t)
    ensures r.None? ==> forall k :: 0 <= k < |vocab| ==> LowerCase(vocab[k]) != LowerCase(t)
  {
    if vocab == [] then None
    else if LowerCase(vocab[0]) == LowerCase(t) then Some(vocab[0])
    else FindType(vocab[1..], t)
  }

  /** Whether `t` is a street type, ignoring case. */
  predicate IsStreetType(t: string) {
    FindType(StreetTypes, t).Some?
  }

  /** The empty string is not a street type. */
  lemma EmptyIsNoStreetType()
    ensures !IsStreetType("")
  {
    assert "" !in StreetTypes;
  }

  /** A token that is a street type once its periods are removed. */
  predicate IsTypeToken(token: string) {
    IsStreetType(StripPeriods(token))
  }

  /** A street-type token is never empty, so it is always truthy. */
  lemma TypeTokenNonEmpty(token: string)
    requires IsTypeToken(token)
    ensures token != ""
  {
    if token == "" {
      assert StripPeriods(token) == "";
      EmptyIsNoStreetType();
    }
  }

  /** Direction extraction on the token list: with two or more tokens, the period-stripped
      first token if it is a direction, else the period-stripped last token if it is one;
      the direction found and the tokens left. */
  function DirectionSplit(tokens: seq<string>): (r: (string, seq<string>))
  {
    if |tokens| > 1 && Contains(DirTokens, StripPeriods(tokens[0])) then
      (StripPeriods(tokens[0]), tokens[1..])
    else if |tokens| > 1 && Contains(DirTokens, StripPeriods(tokens[|tokens| - 1])) then
      (StripPeriods(tokens[|tokens| - 1]), tokens[..|tokens| - 1])
    else
      ("", tokens)
  }

  /** The index of the rightmost token satisfying `matches`, if any. */
  function RightmostIndex(tokens: seq<string>, matches: string -> bool): (r: Option<nat>)
    ensures r.Some? ==> r.value < |tokens| && matches(tokens[r.value])
    ensures r.Some? ==> forall j :: r.value < j < |tokens| ==> !matches(tokens[j])
    ensures r.None? ==> forall j :: 0 <= j < |tokens| ==> !matches(tokens[j])
    decreases |tokens|
  {
    if tokens == [] then None
    else if matches(tokens[|tokens| - 1]) then Some(|tokens| - 1)
    else RightmostIndex(tokens[..|tokens| - 1], matches)
  }

  /** The index of the rightmost street-type token, if any. */
  function RightmostTypeIndex(tokens: seq<string>): Option<nat> {
    RightmostIndex(tokens, IsTypeToken)
  }

  /** The street name, street type and direction drawn from a route. */
  datatype StreetParts = StreetParts(name: string, streetType: string, dir: string)

  /** The words of a route: `route.trim().split(/\s+/)`. */
  function RouteTokens(route: string): seq<string> {
    SplitSpaces(Trim(route))
  }

  /** Reference definition of the route decomposition. The name is the route itself unless a
      street type is removed; only then is it the remaining tokens joined with single spaces. */
  function RouteParts(route: string): StreetParts {
    if route == "" then StreetParts("", "", "")
    else
      var (dir, rest) := DirectionSplit(RouteTokens(route));
      match RightmostTypeIndex(rest)
      case None => StreetParts(route, "", dir)
      case Some(i) => StreetParts(Join(rest[..i] + rest[i + 1..], " "), rest[i], dir)
  }

  /** The direction test on the first and last words (static/app.js:92-97): the matching
      word is removed with `shift` or `pop`. */
  method ExtractDirection(tokens: seq<string>) returns (dir: string, rest: seq<string>)
    ensures (dir, rest) == DirectionSplit(tokens)
  {
    dir, rest := "", tokens;
    if |rest| > 1 {
      var first := StripPeriods(rest[0]);
      var last := StripPeriods(rest[|rest| - 1]);
      if Contains(DirTokens, first) {
        dir := first;
        rest := rest[1..];
      } else if Contains(DirTokens, last) {
        dir := last;
        rest := rest[..|rest| - 1];
      }
    }
  }

  /** The reverse `for` scan with `splice` and `break` (static/app.js:98-102), for any token
      test: it removes the first token, counting from the end, that passes the test, and stops. */
  method RemoveRightmost(tokens: seq<string>, matches: string -> bool)
    returns (found: Option<string>, rest: seq<string>)
    ensures match RightmostIndex(tokens, matches)
      case None => found == None && rest == tokens
      case Some(i) => found == Some(tokens[i]) && rest == tokens[..i] + tokens[i + 1..]
  {
    found, rest := None, tokens;
    var i := |rest| - 1;
    while i >= 0
      invariant -1 <= i < |rest| && rest == tokens && found == None
      invariant forall j :: i < j < |tokens| ==> !matches(tokens[j])
    {
      if matches(rest[i]) {
        found := Some(rest[i]);
        rest := rest[..i] + rest[i + 1..];
        assert RightmostIndex(tokens, matches) == Some(i);
        return;
      }
      i := i - 1;
    }
  }

  /** The reverse scan of static/app.js:98-102 for a token that is a street type once its
      periods are removed. */
  method ExtractStreetType(tokens: seq<string>) returns (matchedType: Option<string>, rest: seq<string>)
    ensures match RightmostTypeIndex(tokens)
      case None => matchedType == None && rest == tokens
      case Some(i) => matchedType == Some(tokens[i]) && rest == tokens[..i] + tokens[i + 1..]
  {
    matchedType, rest := RemoveRightmost(tokens, IsTypeToken);
  }

  /** The route split of static/app.js:84-106: tokens, direction, street type, and the
      street name, which is re-joined only when a street type was removed. */
  method SplitRoute(route: string) returns (parts: StreetParts)
    ensures parts == RouteParts(route)
  {
    var streetName := route;
    var streetType := "";
    var streetDir := "";
    if streetName != "" {
      var tokens := SplitSpaces(Trim(streetName));
      streetDir, tokens := ExtractDirection(tokens);
      var matchedType;
      matchedType, tokens := ExtractStreetType(tokens);
      if matchedType.Some? {
        TypeTokenNonEmpty(matchedType.value);
      }
      if matchedType.Some? && matchedType.value != "" {
        streetType := matchedType.value;
        streetName := Join(tokens, " ");
      }
    }
    parts := StreetParts(streetName, streetType, streetDir);
  }

  // ---------- properties of the route split ----------

  /** The words of a non-empty route left once the direction and the street type are
      removed. */
  function RemainingTokens(route: string): seq<string>
    requires route != ""
  {
    var rest := DirectionSplit(RouteTokens(route)).1;
    match RightmostTypeIndex(rest)
    case None => rest
    case Some(i) => rest[..i] + rest[i + 1..]
  }

  /** The empty word is not a direction. */
  lemma EmptyIsNoDirection()
    ensures !Contains(DirTokens, "")
  {
    assert forall i :: 0 <= i < |DirTokens| ==> |DirTokens[i]| > 0;
    NoEmptyEntry(DirTokens);
  }

  /** A list whose entries are all non-empty does not contain the empty word. */
  lemma {:induction false} NoEmptyEntry(list: seq<string>)
    requires forall i :: 0 <= i < |list| ==> |list[i]| > 0
    ensures !Contains(list, "")
  {
    if list != [] {
      NoEmptyEntry(list[1..]);
    }
  }

  /** Direction extraction on a word list: a direction is found exactly when there are two or
      more words and the first or the last is a direction once its periods are removed; the
      first is preferred; the direction's word is the only word removed. */
  lemma DirectionSplitFacts(tokens: seq<string>)
    ensures var (dir, rest) := DirectionSplit(tokens);
      dir != "" <==>
        |tokens| > 1 &&
        (Contains(DirTokens, StripPeriods(tokens[0])) || Contains(DirTokens, StripPeriods(tokens[|tokens| - 1])))
    ensures |tokens| > 1 && Contains(DirTokens, StripPeriods(tokens[0])) ==>
      DirectionSplit(tokens).0 == StripPeriods(tokens[0])
    ensures var (dir, rest) := DirectionSplit(tokens);
      dir != "" ==> Contains(DirTokens, dir) && '.' !in dir && |rest| == |tokens| - 1
    ensures var (dir, rest) := DirectionSplit(tokens);
      dir == "" ==> rest == tokens
    ensures forall w :: w in DirectionSplit(tokens).1 ==> w in tokens
    ensures |tokens| > 1 && Contains(DirTokens, StripPeriods(tokens[0])) ==>
      DirectionSplit(tokens).1 == tokens[1..]
    ensures && |tokens| > 1 && !Contains(DirTokens, StripPeriods(tokens[0]))
            && Contains(DirTokens, StripPeriods(tokens[|tokens| - 1]))
            ==> DirectionSplit(tokens) == (StripPeriods(tokens[|tokens| - 1]), tokens[..|tokens| - 1])
  {
    EmptyIsNoDirection();
  }

  /** The same on a route: a direction is found exactly when the route has two or more
      words and the first or the last of them is a direction; the first word is preferred. */
  lemma RouteDirection(route: string)
    ensures var tokens := RouteTokens(route);
      RouteParts(route).dir != "" <==>
        route != "" && |tokens| > 1 &&
        (Contains(DirTokens, StripPeriods(tokens[0])) || Contains(DirTokens, StripPeriods(tokens[|tokens| - 1])))
    ensures var tokens := RouteTokens(route);
      route != "" && |tokens| > 1 && Contains(DirTokens, StripPeriods(tokens[0])) ==>
        RouteParts(route).dir == StripPeriods(tokens[0])
    ensures var tokens := RouteTokens(route);
      route != "" && |tokens| > 1 && !Contains(DirTokens, StripPeriods(tokens[0])) &&
      Contains(DirTokens, StripPeriods(tokens[|tokens| - 1])) ==>
        RouteParts(route).dir == StripPeriods(tokens[|tokens| - 1])
    ensures RouteParts(route).dir != "" ==> Contains(DirTokens, RouteParts(route).dir) && '.' !in RouteParts(route).dir
  {
    if route != "" {
      DirectionSplitFacts(RouteTokens(route));
    }
  }

  /** The street type is one of the route's words (with its periods kept) that is a street
      type once they are removed, and no word after it is one; without a street type the name
      is the route exactly as given. */
  lemma RouteStreetType(route: string)
    ensures RouteParts(route).streetType != "" ==>
      route != "" && IsTypeToken(RouteParts(route).streetType) &&
      RouteParts(route).streetType in DirectionSplit(RouteTokens(route)).1
    ensures RouteParts(route).streetType == "" ==> RouteParts(route).name == route
    ensures route != "" && RouteParts(route).streetType == "" ==>
      var rest := DirectionSplit(RouteTokens(route)).1;
      forall j :: 0 <= j < |rest| ==> !IsTypeToken(rest[j])
    ensures RouteParts(route).streetType != "" ==>
      var rest := DirectionSplit(RouteTokens(route)).1;
      var i := RightmostTypeIndex(rest);
      && i.Some? && rest[i.value] == RouteParts(route).streetType
      && forall j :: i.value < j < |rest| ==> !IsTypeToken(rest[j])
  {
    if route != "" {
      var rest := DirectionSplit(RouteTokens(route)).1;
      match RightmostTypeIndex(rest)
      case None =>
      case Some(i) =>
        TypeTokenNonEmpty(rest[i]);
    }
  }

  /** Direction extraction removes exactly the direction's word when it finds a direction:
      the first word, or else the last, with the others kept in order; it removes none
      otherwise. */
  lemma DirectionSplitRest(tokens: seq<string>)
    ensures var (dir, rest) := DirectionSplit(tokens);
      dir != "" ==>
        && |tokens| > 1 && |rest| == |tokens| - 1
        && ((dir == StripPeriods(tokens[0]) && rest == tokens[1..]) ||
            (dir == StripPeriods(tokens[|tokens| - 1]) && rest == tokens[..|tokens| - 1]))
    ensures var (dir, rest) := DirectionSplit(tokens);
      dir == "" ==> rest == tokens
  {
    EmptyIsNoDirection();
    if |tokens| > 1 && Contains(DirTokens, StripPeriods(tokens[0])) {
      assert DirectionSplit(tokens) == (StripPeriods(tokens[0]), tokens[1..]);
    } else if |tokens| > 1 && Contains(DirTokens, StripPeriods(tokens[|tokens| - 1])) {
      assert DirectionSplit(tokens) == (StripPeriods(tokens[|tokens| - 1]), tokens[..|tokens| - 1]);
    } else {
      assert DirectionSplit(tokens) == ("", tokens);
    }
  }

  /** Every word of the route is accounted for: the remaining words, the street type and the
      direction's word together are exactly as many as the route's words. */
  lemma RouteTokensAccounted(route: string)
    requires route != ""
    ensures var p := RouteParts(route);
      |RouteTokens(route)| ==
        |RemainingTokens(route)| + (if p.streetType != "" then 1 else 0) + (if p.dir != "" then 1 else 0)
  {
    var rest := DirectionSplit(RouteTokens(route)).1;
    DirectionSplitRest(RouteTokens(route));
    match RightmostTypeIndex(rest)
    case None =>
    case Some(i) =>
      TypeTokenNonEmpty(rest[i]);
  }

  /** Removing one word from a list of non-empty, space-free words and joining the rest
      with single spaces gives a string that splits back into exactly those words, and is
      empty only when no word remains. */
  lemma RemoveWordJoin(words: seq<string>, i: nat)
    requires i < |words|
    requires forall k :: 0 <= k < |words| ==> words[k] != "" && !HasSpace(words[k])
    ensures var left := words[..i] + words[i + 1..];
      (left == [] <==> Join(left, " ") == "") &&
      (left != [] ==> SplitSpaces(Join(left, " ")) == left)
  {
    var left := words[..i] + words[i + 1..];
    assert forall k :: 0 <= k < |left| ==> left[k] == (if k < i then words[k] else words[k + 1]);
    if left != [] {
      SplitSpacesJoin(left);
      JoinStartsWithToken(left);
    }
  }

  /** Direction extraction keeps the words of a list of non-empty, space-free words as they
      are. */
  lemma WordsAfterDirection(tokens: seq<string>)
    requires forall k :: 0 <= k < |tokens| ==> tokens[k] != "" && !HasSpace(tokens[k])
    ensures var rest := DirectionSplit(tokens).1;
      forall k :: 0 <= k < |rest| ==> rest[k] != "" && !HasSpace(rest[k])
  {
    var rest := DirectionSplit(tokens).1;
    assert rest == tokens || rest == tokens[1..] || rest == tokens[..|tokens| - 1];
  }

  /** When a street type is removed, the street name splits back into exactly the remaining
      words, and is empty exactly when none remain. */
  lemma RouteNameWords(route: string)
    requires route != "" && RouteParts(route).streetType != ""
    ensures RouteParts(route).name == Join(RemainingTokens(route), " ")
    ensures RemainingTokens(route) == [] <==> RouteParts(route).name == ""
    ensures RemainingTokens(route) != [] ==> SplitSpaces(RouteParts(route).name) == RemainingTokens(route)
  {
    var tokens := RouteTokens(route);
    var rest := DirectionSplit(tokens).1;
    var i := RightmostTypeIndex(rest).value;
    TypeTokenNonEmpty(rest[i]);
    SplitSpacesOfTrim(route);
    assert tokens != [""] by {
      assert DirectionSplit([""]).1 == [""];
    }
    WordsAfterDirection(tokens);
    RemoveWordJoin(rest, i);
  }

  /** "Street" is one word. */
  lemma StreetIsOneWord()
    ensures RouteTokens("Street") == ["Street"]
  {
    assert !HasSpace("Street");
    TrimOfTrimmed("Street");
    SplitSpacesNoSpace("Street");
  }

  /** "Street" is a street-type word. */
  lemma StreetIsTypeToken()
    ensures IsTypeToken("Street")
  {
    assert '.' !in "Street";
    assert LowerCase(StreetTypes[0]) == LowerCase("Street");
  }

  /** A route of one word that is a street type keeps it as the type and leaves an empty
      name. */
  lemma OneTypeWord(route: string, w: string)
    requires route != "" && RouteTokens(route) == [w] && IsTypeToken(w)
    ensures RouteParts(route) == StreetParts("", w, "")
  {
    assert DirectionSplit([w]) == ("", [w]);
    assert RightmostTypeIndex([w]) == Some(0);
    assert [w][..0] + [w][1..] == [];
  }

  /** The route "Street" has the street type "Street" and an empty name. */
  lemma LoneStreetType()
    ensures RouteParts("Street") == StreetParts("", "Street", "")
  {
    StreetIsOneWord();
    StreetIsTypeToken();
    OneTypeWord("Street", "Street");
  }

  /** "N Ave" is two words. */
  lemma NAveWords()
    ensures RouteTokens("N Ave") == ["N", "Ave"]
  {
    var words := ["N", "Ave"];
    assert Join(words, " ") == "N Ave";
    SplitSpacesJoin(words);
    TrimOfTrimmed("N Ave");
  }

  /** "Ave" is a street-type word. */
  lemma AveIsTypeToken()
    ensures IsTypeToken("Ave")
  {
    assert '.' !in "Ave";
    assert LowerCase(StreetTypes[3]) == LowerCase("Ave");
  }

  /** A leading direction is taken off the front; the street type that is left is removed
      too, and the name that remains is empty. */
  lemma NAve()
    ensures RouteParts("N Ave") == StreetParts("", "Ave", "N")
  {
    NAveWords();
    var tokens := ["N", "Ave"];
    assert StripPeriods(tokens[0]) == "N" by {
      assert '.' !in "N";
    }
    assert Contains(DirTokens, "N");
    AveIsTypeToken();
    assert DirectionSplit(tokens) == ("N", ["Ave"]);
    assert RightmostTypeIndex(["Ave"]) == Some(0);
  }

  // ---------- the whole parser ----------

  /** Reference definition of `parsePlaceToSubfields`. */
  function ParsePlace(place: Option<Place>): ParseResult {
    if place.None? || place.value.addressComponents.None? then Unparsed(EmptyComps)
    else
      var cs := place.value.addressComponents.value;
      var street := RouteParts(CategoryValue(cs, Route));
      Parsed(Subfields(
        CategoryValue(cs, StreetNumber), street.name, street.streetType, street.dir,
        CategoryValue(cs, PostalCode), CategoryValue(cs, Locality),
        CategoryValue(cs, AdminAreaLevel1), CategoryValue(cs, Country)))
  }

  /** `parsePlaceToSubfields`: the fold, then the route split, then the result record
      (whose `x || ""` fallbacks leave strings unchanged). */
  method ParsePlaceToSubfields(place: Option<Place>) returns (r: ParseResult)
    ensures r == ParsePlace(place)
  {
    if place.None? || place.value.addressComponents.None? {
      return Unparsed(EmptyComps);
    }
    var comps := FoldComponents(place.value.addressComponents.value);
    assert Field(comps, Route) == comps.route;
    var street := SplitRoute(comps.route);
    assert Field(comps, StreetNumber) == comps.streetNumber;
    assert Field(comps, PostalCode) == comps.postalCode;
    assert Field(comps, Locality) == comps.locality;
    assert Field(comps, AdminAreaLevel1) == comps.adminAreaLevel1;
    assert Field(comps, Country) == comps.country;
    r := Parsed(Subfields(
      Or(comps.streetNumber, ""), Or(street.name, ""), Or(street.streetType, ""), Or(street.dir, ""),
      Or(comps.postalCode, ""), Or(comps.locality, ""), Or(comps.adminAreaLevel1, ""), Or(comps.country, "")));
  }
  // ---------- properties of the whole parser ----------

  /** The subfield that a category other than the route fills. */
  function SubfieldFor(f: Subfields, cat: Category): string
    requires cat != Route
  {
    match cat
    case StreetNumber => f.streetNumber
    case PostalCode => f.postalCode
    case Locality => f.city
    case AdminAreaLevel1 => f.state
    case Country => f.country
  }

  /** Without a place, without components, or with an empty component list, every subfield
      reads as empty; only the first two return the accumulator instead of a subfield record. */
  lemma NothingToParse(place: Option<Place>)
    requires place.None? || place.value.addressComponents.None? || place.value.addressComponents.value == []
    ensures Read(ParsePlace(place)) == EmptySubfields
    ensures ParsePlace(place).Parsed? <==> place.Some? && place.value.addressComponents.Some?
  {
  }

  /** Last wins in the parser's output: a subfield other than the street parts holds the
      name from the last component that fills its category. */
  lemma ParsedLastWins(cs: seq<AddressComponent>, cat: Category, j: nat)
    requires cat != Route
    requires j < |cs| && Fills(cs[j], cat)
    requires forall k :: j < k < |cs| ==> !Fills(cs[k], cat)
    ensures SubfieldFor(Read(ParsePlace(Some(Place(Some(cs))))), cat) == NameFor(cs[j], cat)
  {
    CategoryValueLastWins(cs, cat, j);
  }

  /** A subfield whose category no component fills is empty. */
  lemma ParsedUnfilled(cs: seq<AddressComponent>, cat: Category)
    requires cat != Route
    requires forall k :: 0 <= k < |cs| ==> !Fills(cs[k], cat)
    ensures SubfieldFor(Read(ParsePlace(Some(Place(Some(cs))))), cat) == ""
  {
    CategoryValueUnfilled(cs, cat);
  }

  /** The street name, type and direction come from the last route component alone, and are
      all empty when there is none. */
  lemma ParsedStreetFromLastRoute(cs: seq<AddressComponent>, j: nat)
    requires j < |cs| && Fills(cs[j], Route)
    requires forall k :: j < k < |cs| ==> !Fills(cs[k], Route)
    ensures var f := Read(ParsePlace(Some(Place(Some(cs)))));
      StreetParts(f.streetName, f.streetType, f.streetDir) == RouteParts(NameFor(cs[j], Route))
  {
    CategoryValueLastWins(cs, Route, j);
  }

  /** Without a route component the street name, type and direction stay empty. */
  lemma ParsedNoRoute(cs: seq<AddressComponent>)
    requires forall k :: 0 <= k < |cs| ==> !Fills(cs[k], Route)
    ensures var f := Read(ParsePlace(Some(Place(Some(cs)))));
      f.streetName == "" && f.streetType == "" && f.streetDir == ""
  {
    CategoryValueUnfilled(cs, Route);
  }
}
