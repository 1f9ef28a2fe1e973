/** The catalog extractor (`XmlParser`): locating the shop, listing its
    sections, and turning `currency`, `category` and `offer` elements into
    records. Each parse walks the matching elements in document order and,
    per element, skips it, emits one record, or aborts the whole call with
    the NumberFormatException of `new BigDecimal`. */
module XmlParser {
  import opened Wrappers
  import opened JavaString
  import opened Decimals
  import opened Xml

  datatype CurrencyData = CurrencyData(code: string, rate: Decimal)

  datatype CategoryData = CategoryData(id: string, name: string)

  /** `categoryId`, `price` and `currencyCode` are nullable in the source. */
  datatype OfferData = OfferData(
    vendorCode: string,
    name: string,
    categoryId: Option<string>,
    price: Option<Decimal>,
    currencyCode: Option<string>)

  /** The NumberFormatException thrown by `new BigDecimal(text)`. */
  datatype ParseError = NumberFormat(text: string)

  /** What one element contributes to a parse. */
  datatype Step<T> = Skip | Emit(record: T) | Abort(error: ParseError)

  /** The loop every parse runs: records of the emitting elements in order,
      or the error of the first aborting element. */
  function Extract<T>(step: Element -> Step<T>, es: seq<Element>): (r: Result<seq<T>, ParseError>)
    ensures r.Ok? ==> |r.value| <= |es|
  {
    if es == [] then Ok([])
    else
      match step(es[0])
      case Abort(err) => Err(err)
      case Skip => Extract(step, es[1..])
      case Emit(x) =>
        match Extract(step, es[1..])
        case Err(err) => Err(err)
        case Ok(xs) => Ok([x] + xs)
  }

  /** Every record comes from an element that emitted it, and an error from
      an element that aborted. */
  lemma {:induction false} ExtractProvenance<T>(step: Element -> Step<T>, es: seq<Element>)
    ensures Extract(step, es).Ok? ==>
      forall k :: 0 <= k < |Extract(step, es).value| ==>
        exists i :: 0 <= i < |es| && step(es[i]) == Emit(Extract(step, es).value[k])
    ensures Extract(step, es).Err? ==>
      exists i :: 0 <= i < |es| && step(es[i]) == Abort(Extract(step, es).error)
                 && forall j :: 0 <= j < i ==> !step(es[j]).Abort?
  {
    if es != [] {
      ExtractProvenance(step, es[1..]);
      var rest := Extract(step, es[1..]);
      var r := Extract(step, es);
      if r.Err? && !step(es[0]).Abort? {
        var i :| 0 <= i < |es[1..]| && step(es[1..][i]) == Abort(rest.error)
                 && forall j :: 0 <= j < i ==> !step(es[1..][j]).Abort?;
        assert es[1..][i] == es[i + 1];
        assert forall j :: 1 <= j < i + 1 ==> es[j] == es[1..][j - 1];
      }
      if r.Ok? {
        forall k | 0 <= k < |r.value| ensures exists i :: 0 <= i < |es| && step(es[i]) == Emit(r.value[k]) {
          if step(es[0]).Emit? && k == 0 {
            assert step(es[0]) == Emit(r.value[0]);
          } else {
            var k' := if step(es[0]).Emit? then k - 1 else k;
            assert r.value[k] == rest.value[k'];
            var i :| 0 <= i < |es[1..]| && step(es[1..][i]) == Emit(rest.value[k']);
            assert es[1..][i] == es[i + 1];
          }
        }
      }
    }
  }

  /** Parsing a concatenation: the first part's error wins, then the second's;
      otherwise the records are concatenated. */
  lemma {:induction false} ExtractAppend<T>(step: Element -> Step<T>, a: seq<Element>, b: seq<Element>)
    ensures Extract(step, a + b) ==
      match Extract(step, a)
      case Err(e) => Err(e)
      case Ok(xs) =>
        match Extract(step, b)
        case Err(e) => Err(e)
        case Ok(ys) => Ok(xs + ys)
  {
    if a == [] {
      assert a + b == b;
      match Extract(step, b)
      case Err(e) =>
      case Ok(ys) => assert [] + ys == ys;
    } else {
      assert (a + b)[0] == a[0];
      assert (a + b)[1..] == a[1..] + b;
      ExtractAppend(step, a[1..], b);
      match step(a[0])
      case Abort(e) =>
      case Skip =>
      case Emit(x) =>
        match Extract(step, a[1..])
        case Err(e) =>
        case Ok(xs) =>
          match Extract(step, b)
          case Err(e) =>
          case Ok(ys) => assert [x] + (xs + ys) == ([x] + xs) + ys;
    }
  }

  /** One more element after a successful prefix. */
  lemma {:induction false} ExtractSnoc<T>(step: Element -> Step<T>, es: seq<Element>, xs: seq<T>, e: Element)
    requires Extract(step, es) == Ok(xs)
    ensures step(e).Skip? ==> Extract(step, es + [e]) == Ok(xs)
    ensures step(e).Emit? ==> Extract(step, es + [e]) == Ok(xs + [step(e).record])
    ensures step(e).Abort? ==> Extract(step, es + [e]) == Err(step(e).error)
  {
    ExtractAppend(step, es, [e]);
    assert [e][1..] == [];
    assert Extract(step, [e][1..]) == Ok([]);
    if step(e).Emit? {
      assert [step(e).record] + [] == [step(e).record];
    }
    assert xs + [] == xs;
  }

  /** An error in a prefix is the error of the whole sequence. */
  lemma {:induction false} ExtractPrefixErr<T>(step: Element -> Step<T>, es: seq<Element>, n: nat)
    requires n <= |es| && Extract(step, es[..n]).Err?
    ensures Extract(step, es) == Extract(step, es[..n])
  {
    ExtractAppend(step, es[..n], es[n..]);
    assert es[..n] + es[n..] == es;
  }

  /** The loop body of every parse: element `i` after a successful prefix. */
  lemma {:induction false} ExtractStep<T>(step: Element -> Step<T>, es: seq<Element>, i: nat, xs: seq<T>)
    requires i < |es| && Extract(step, es[..i]) == Ok(xs)
    ensures step(es[i]).Skip? ==> Extract(step, es[..i + 1]) == Ok(xs)
    ensures step(es[i]).Emit? ==> Extract(step, es[..i + 1]) == Ok(xs + [step(es[i]).record])
    ensures step(es[i]).Abort? ==> Extract(step, es) == Err(step(es[i]).error)
  {
    var pre := es[..i];
    var e := es[i];
    assert es[..i + 1] == pre + [e];
    ExtractSnoc(step, pre, xs, e);
    if step(e).Abort? {
      ExtractPrefixErr(step, es, i + 1);
    }
  }

  /** A whole sequence is its longest prefix. */
  lemma {:induction false} ExtractAll<T>(step: Element -> Step<T>, es: seq<Element>)
    ensures Extract(step, es[..|es|]) == Extract(step, es)
  {
    assert es[..|es|] == es;
  }

  /** The parse succeeds exactly when no element aborts it. */
  lemma {:induction false} ExtractOkIff<T>(step: Element -> Step<T>, es: seq<Element>)
    ensures Extract(step, es).Ok? <==> forall i :: 0 <= i < |es| ==> !step(es[i]).Abort?
  {
    if es != [] {
      ExtractOkIff(step, es[1..]);
      assert forall i :: 1 <= i < |es| ==> es[i] == es[1..][i - 1];
    }
  }

  /** How many elements emit a record. */
  function EmitCount<T>(step: Element -> Step<T>, es: seq<Element>): nat {
    if es == [] then 0 else (if step(es[0]).Emit? then 1 else 0) + EmitCount(step, es[1..])
  }

  /** A successful parse has exactly one record per emitting element, so
      every skipped element shortens the result by exactly one. */
  lemma {:induction false} ExtractLength<T>(step: Element -> Step<T>, es: seq<Element>)
    ensures Extract(step, es).Ok? ==> |Extract(step, es).value| == EmitCount(step, es)
  {
    if es != [] {
      ExtractLength(step, es[1..]);
    }
  }

  /** An element that is skipped can be removed without changing the result:
      it affects neither the other records nor their order. */
  lemma {:induction false} SkippedElementIsInvisible<T>(step: Element -> Step<T>, a: seq<Element>, e: Element, b: seq<Element>)
    requires step(e).Skip?
    ensures Extract(step, a + [e] + b) == Extract(step, a + b)
  {
    ExtractAppend(step, a + [e], b);
    ExtractAppend(step, a, [e]);
    ExtractAppend(step, a, b);
    assert [e][1..] == [];
    assert Extract(step, [e]) == Ok([]);
    if Extract(step, a).Ok? {
      assert Extract(step, a).value + [] == Extract(step, a).value;
    }
  }

  /** The matching elements of one section: `shop.<section>.<item>`, or none
      when there is no shop. */
  function SectionElements(root: Element, section: string, item: string): seq<Element> {
    match ShopNode(root)
    case None => []
    case Some(shop) => Property(Property(shop, section), item)
  }

  /** Per-element rule of `parseCurrencies` (see CurrencyRules). */
  function CurrencyStep(e: Element): Step<CurrencyData> {
    var code := ExtractAttribute(e, "id");
    var rateText := ExtractAttribute(e, "rate");
    if code.Some? && rateText.Some? then
      match ParseDecimal(Trim(rateText.value))
      case None => Abort(NumberFormat(Trim(rateText.value)))
      case Some(rate) => Emit(CurrencyData(Trim(code.value), rate))
    else
      Skip
  }

  /** A currency needs both the `id` and the `rate` attribute; its code is
      the trimmed id (a blank id gives an empty code), its rate the trimmed
      `rate` text read as a decimal, and a rate that is no decimal aborts. */
  lemma {:induction false} CurrencyRules(e: Element)
    ensures CurrencyStep(e).Skip? <==> "id" !in e.attrs || "rate" !in e.attrs
    ensures CurrencyStep(e).Emit? ==> CurrencyStep(e).record.code == Trim(e.attrs["id"])
    ensures CurrencyStep(e).Emit? ==> ParseDecimal(Trim(e.attrs["rate"])) == Some(CurrencyStep(e).record.rate)
    ensures CurrencyStep(e).Abort? <==> "id" in e.attrs && "rate" in e.attrs && ParseDecimal(Trim(e.attrs["rate"])).None?
  {
  }

  /** Per-element rule of `parseCategories` (see CategoryRules). */
  function CategoryStep(e: Element): Step<CategoryData> {
    var id := ExtractAttribute(e, "id");
    var name := ElementText(e);
    if id.Some? && name != "" then Emit(CategoryData(Trim(id.value), Trim(name))) else Skip
  }

  /** A category needs the `id` attribute and text that is non-empty BEFORE
      trimming; both fields are then trimmed. It never aborts. */
  lemma {:induction false} CategoryRules(e: Element)
    ensures !CategoryStep(e).Abort?
    ensures CategoryStep(e).Emit? <==> "id" in e.attrs && ElementText(e) != ""
    ensures CategoryStep(e).Emit? ==>
              CategoryStep(e).record == CategoryData(Trim(e.attrs["id"]), Trim(ElementText(e)))
  {
  }

  /** Trim a nullable text; null stays null. */
  function TrimOption(t: Option<string>): Option<string> {
    match t
    case None => None
    case Some(s) => Some(Trim(s))
  }

  /** Per-element rule of `parseOffers` (see OfferRules). */
  function OfferStep(e: Element): Step<OfferData> {
    var vendorCode := ExtractAttribute(e, "id");
    var name := ExtractChildText(e, "name");
    var categoryId := ExtractChildText(e, "categoryId");
    var priceText := ExtractChildText(e, "price");
    var currencyCode := ExtractChildText(e, "currencyId");
    if vendorCode.None? then
      Skip
    else
      var price := if priceText.Some? then ParseDecimal(Trim(priceText.value)) else None;
      if priceText.Some? && price.None? then
        Abort(NumberFormat(Trim(priceText.value)))
      else
        Emit(OfferData(
          Trim(vendorCode.value),
          if name.Some? then Trim(name.value) else "",
          TrimOption(categoryId),
          price,
          TrimOption(currencyCode)))
  }

  /** An offer needs the `id` attribute. `name` defaults to "", `categoryId`
      and `currencyCode` are null exactly when their child is missing, and
      `price` is null exactly when there is no `price` child. A present
      `price` whose trimmed text is no decimal aborts the parse. */
  lemma {:induction false} OfferRules(e: Element)
    ensures OfferStep(e).Skip? <==> "id" !in e.attrs
    ensures OfferStep(e).Abort? <==> "id" in e.attrs && ExtractChildText(e, "price").Some?
                                     && ParseDecimal(Trim(ExtractChildText(e, "price").value)).None?
    ensures OfferStep(e).Emit? ==> OfferStep(e).record.vendorCode == Trim(e.attrs["id"])
    ensures OfferStep(e).Emit? ==>
              OfferStep(e).record.name == (match ExtractChildText(e, "name") case None => "" case Some(t) => Trim(t))
    ensures OfferStep(e).Emit? ==>
              (OfferStep(e).record.categoryId.None? <==> ExtractChildText(e, "categoryId").None?)
              && (OfferStep(e).record.categoryId.Some? ==>
                    OfferStep(e).record.categoryId.value == Trim(ExtractChildText(e, "categoryId").value))
    ensures OfferStep(e).Emit? ==>
              (OfferStep(e).record.currencyCode.None? <==> ExtractChildText(e, "currencyId").None?)
              && (OfferStep(e).record.currencyCode.Some? ==>
                    OfferStep(e).record.currencyCode.value == Trim(ExtractChildText(e, "currencyId").value))
    ensures OfferStep(e).Emit? ==> (OfferStep(e).record.price.None? <==> ExtractChildText(e, "price").None?)
    ensures OfferStep(e).Emit? && OfferStep(e).record.price.Some? ==>
              ParseDecimal(Trim(ExtractChildText(e, "price").value)) == OfferStep(e).record.price
  {
  }

  function CurrenciesOf(root: Element): Result<seq<CurrencyData>, ParseError> {
    Extract(CurrencyStep, SectionElements(root, "currencies", "currency"))
  }

  function CategoriesOf(root: Element): Result<seq<CategoryData>, ParseError> {
    Extract(CategoryStep, SectionElements(root, "categories", "category"))
  }

  function OffersOf(root: Element): Result<seq<OfferData>, ParseError> {
    Extract(OfferStep, SectionElements(root, "offers", "offer"))
  }

  /** `parseCurrencies()`: no shop, no section or no `currency` element all
      give the empty list. */
  method ParseCurrencies(root: Element) returns (r: Result<seq<CurrencyData>, ParseError>)
    ensures r == CurrenciesOf(root)
  {
    var shop := ShopNode(root);
    if shop.None? {
      return Ok([]);
    }
    var currencyNodes := Property(Property(shop.value, "currencies"), "currency");
    r := CollectCurrencies(currencyNodes);
  }

  /** The loop of `parseCurrencies()` over the `currency` elements. */
  method CollectCurrencies(currencyNodes: seq<Element>) returns (r: Result<seq<CurrencyData>, ParseError>)
    ensures r == Extract(CurrencyStep, currencyNodes)
  {
    var currencies: seq<CurrencyData> := [];
    for i := 0 to |currencyNodes|
      invariant Extract(CurrencyStep, currencyNodes[..i]) == Ok(currencies)
    {
      var currency := currencyNodes[i];
      ExtractStep(CurrencyStep, currencyNodes, i, currencies);
      var code := ExtractAttribute(currency, "id");
      var rateText := ExtractAttribute(currency, "rate");
      if code.Some? && rateText.Some? {
        var rate := ParseDecimal(Trim(rateText.value));
        if rate.None? {
          return Err(NumberFormat(Trim(rateText.value)));
        }
        currencies := currencies + [CurrencyData(Trim(code.value), rate.value)];
      }
    }
    ExtractAll(CurrencyStep, currencyNodes);
    return Ok(currencies);
  }

  /** `parseCategories()`. */
  method ParseCategories(root: Element) returns (r: Result<seq<CategoryData>, ParseError>)
    ensures r == CategoriesOf(root)
  {
    var shop := ShopNode(root);
    if shop.None? {
      return Ok([]);
    }
    var categoryNodes := Property(Property(shop.value, "categories"), "category");
    r := CollectCategories(categoryNodes);
  }

  /** The loop of `parseCategories()` over the `category` elements. */
  method CollectCategories(categoryNodes: seq<Element>) returns (r: Result<seq<CategoryData>, ParseError>)
    ensures r == Extract(CategoryStep, categoryNodes)
  {
    var categories: seq<CategoryData> := [];
    for i := 0 to |categoryNodes|
      invariant Extract(CategoryStep, categoryNodes[..i]) == Ok(categories)
    {
      var category := categoryNodes[i];
      ExtractStep(CategoryStep, categoryNodes, i, categories);
      var id := ExtractAttribute(category, "id");
      var name := ElementText(category);
      if id.Some? && name != "" {
        categories := categories + [CategoryData(Trim(id.value), Trim(name))];
      }
    }
    ExtractAll(CategoryStep, categoryNodes);
    return Ok(categories);
  }

  /** `parseOffers()`. */
  method ParseOffers(root: Element) returns (r: Result<seq<OfferData>, ParseError>)
    ensures r == OffersOf(root)
  {
    var shop := ShopNode(root);
    if shop.None? {
      return Ok([]);
    }
    var offerNodes := Property(Property(shop.value, "offers"), "offer");
    r := CollectOffers(offerNodes);
  }

  /** The loop of `parseOffers()` over the `offer` elements. */
  method CollectOffers(offerNodes: seq<Element>) returns (r: Result<seq<OfferData>, ParseError>)
    ensures r == Extract(OfferStep, offerNodes)
  {
    var offers: seq<OfferData> := [];
    for i := 0 to |offerNodes|
      invariant Extract(OfferStep, offerNodes[..i]) == Ok(offers)
    {
      var offer := offerNodes[i];
      ExtractStep(OfferStep, offerNodes, i, offers);
      var vendorCode := ExtractAttribute(offer, "id");
      var name := ExtractChildText(offer, "name");
      var categoryId := ExtractChildText(offer, "categoryId");
      var priceText := ExtractChildText(offer, "price");
      var currencyCode := ExtractChildText(offer, "currencyId");
      if vendorCode.Some? {
        var price: Option<Decimal> := None;
        if priceText.Some? {
          price := ParseDecimal(Trim(priceText.value));
          if price.None? {
            assert OfferStep(offer) == Abort(NumberFormat(Trim(priceText.value)));
            return Err(NumberFormat(Trim(priceText.value)));
          }
        }
        var record := OfferData(
          Trim(vendorCode.value),
          if name.Some? then Trim(name.value) else "",
          if categoryId.Some? then Some(Trim(categoryId.value)) else None,
          price,
          if currencyCode.Some? then Some(Trim(currencyCode.value)) else None);
        assert OfferStep(offer) == Emit(record);
        offers := offers + [record];
      } else {
        assert OfferStep(offer) == Skip;
      }
    }
    ExtractAll(OfferStep, offerNodes);
    return Ok(offers);
  }

  /** Position of a reported table name in the order `getTableNames()` uses. */
  function ReportRank(table: string): nat {
    if table == "currency" then 0 else if table == "categories" then 1 else 2
  }

  /** `getTableNames()`: the name under which each section the shop has is
      reported (`currencies` as `currency`), in the fixed order currency,
      categories, offers; nothing without a shop. */
  method GetTableNames(root: Element) returns (tables: seq<string>)
    ensures ShopNode(root).None? ==> tables == []
    ensures ShopNode(root).Some? ==> SectionsReported(ShopNode(root).value, tables)
  {
    tables := [];
    var shop := ShopNode(root);
    if shop.Some? && shop.value != [] {
      var hasCurrencies := HasNode(shop.value, "currencies");
      var hasCategories := HasNode(shop.value, "categories");
      var hasOffers := HasNode(shop.value, "offers");
      tables := ReportedNames(hasCurrencies, hasCategories, hasOffers);
    }
  }

  /** `tables` names, in rank order and without anything else, exactly the
      sections `shop` has. */
  predicate SectionsReported(shop: seq<Element>, tables: seq<string>) {
    ListsExactly(tables, HasNode(shop, "currencies"), HasNode(shop, "categories"), HasNode(shop, "offers"))
  }

  predicate ListsExactly(tables: seq<string>, hasCurrencies: bool, hasCategories: bool, hasOffers: bool) {
    && ("currency" in tables <==> hasCurrencies)
    && ("categories" in tables <==> hasCategories)
    && ("offers" in tables <==> hasOffers)
    && (forall t :: t in tables ==> t == "currency" || t == "categories" || t == "offers")
    && (forall i, j :: 0 <= i < j < |tables| ==> ReportRank(tables[i]) < ReportRank(tables[j]))
  }

  /** The three conditional appends of `getTableNames()`. */
  method ReportedNames(hasCurrencies: bool, hasCategories: bool, hasOffers: bool) returns (tables: seq<string>)
    ensures ListsExactly(tables, hasCurrencies, hasCategories, hasOffers)
  {
    tables := [];
    if hasCurrencies {
      tables := tables + ["currency"];
    }
    if hasCategories {
      tables := tables + ["categories"];
    }
    if hasOffers {
      tables := tables + ["offers"];
    }
  }

  /** Without a shop, or without the section, every parse yields the empty
      list; and no parse yields more records than there are matching
      elements. */
  lemma {:induction false} EmptyWithoutSection(root: Element)
    ensures ShopNode(root).None? ==> CurrenciesOf(root) == Ok([]) && CategoriesOf(root) == Ok([]) && OffersOf(root) == Ok([])
    ensures ShopNode(root).Some? && !HasNode(ShopNode(root).value, "currencies") ==> CurrenciesOf(root) == Ok([])
    ensures ShopNode(root).Some? && !HasNode(ShopNode(root).value, "categories") ==> CategoriesOf(root) == Ok([])
    ensures ShopNode(root).Some? && !HasNode(ShopNode(root).value, "offers") ==> OffersOf(root) == Ok([])
    ensures CurrenciesOf(root).Ok? ==> |CurrenciesOf(root).value| <= |SectionElements(root, "currencies", "currency")|
    ensures CategoriesOf(root).Ok? ==> |CategoriesOf(root).value| <= |SectionElements(root, "categories", "category")|
    ensures OffersOf(root).Ok? ==> |OffersOf(root).value| <= |SectionElements(root, "offers", "offer")|
  {
    if ShopNode(root).Some? {
      var shop := ShopNode(root).value;
      PropertyShape(shop, "currencies");
      PropertyShape(shop, "categories");
      PropertyShape(shop, "offers");
      EmptyProperty(Property(shop, "currencies"), "currency");
      EmptyProperty(Property(shop, "categories"), "category");
      EmptyProperty(Property(shop, "offers"), "offer");
    }
  }

  lemma {:induction false} EmptyProperty(es: seq<Element>, name: string)
    ensures es == [] ==> Property(es, name) == []
  {
  }

  /** `parseCurrencies()` fails exactly when some `currency` element has both
      attributes and a rate that is not a decimal; the error names the
      trimmed rate of the first such element. On success every code is a
      fixed point of `trim()`, and there is one record per element having
      both attributes. */
  lemma {:induction false} CurrenciesOutcome(root: Element)
    ensures var es := SectionElements(root, "currencies", "currency");
      CurrenciesOf(root).Err? <==>
        exists i :: 0 <= i < |es| && "id" in es[i].attrs && "rate" in es[i].attrs
                    && ParseDecimal(Trim(es[i].attrs["rate"])).None?
    ensures var es := SectionElements(root, "currencies", "currency");
      CurrenciesOf(root).Err? ==>
        exists i :: 0 <= i < |es| && "id" in es[i].attrs && "rate" in es[i].attrs
                    && CurrenciesOf(root).error == NumberFormat(Trim(es[i].attrs["rate"]))
    ensures CurrenciesOf(root).Ok? ==>
      forall k :: 0 <= k < |CurrenciesOf(root).value| ==> IsTrimmed(CurrenciesOf(root).value[k].code)
    ensures CurrenciesOf(root).Ok? ==>
      |CurrenciesOf(root).value| == EmitCount(CurrencyStep, SectionElements(root, "currencies", "currency"))
  {
    var es := SectionElements(root, "currencies", "currency");
    ExtractOkIff(CurrencyStep, es);
    ExtractProvenance(CurrencyStep, es);
    ExtractLength(CurrencyStep, es);
    forall i | 0 <= i < |es| {
      CurrencyRules(es[i]);
    }
  }

  /** `parseCategories()` never fails; every id and name it yields is a fixed
      point of `trim()`. */
  lemma {:induction false} CategoriesOutcome(root: Element)
    ensures CategoriesOf(root).Ok?
    ensures forall k :: 0 <= k < |CategoriesOf(root).value| ==>
              IsTrimmed(CategoriesOf(root).value[k].id) && IsTrimmed(CategoriesOf(root).value[k].name)
    ensures |CategoriesOf(root).value| == EmitCount(CategoryStep, SectionElements(root, "categories", "category"))
  {
    var es := SectionElements(root, "categories", "category");
    ExtractOkIff(CategoryStep, es);
    ExtractProvenance(CategoryStep, es);
    ExtractLength(CategoryStep, es);
    forall i | 0 <= i < |es| {
      CategoryRules(es[i]);
    }
  }

  /** `parseOffers()` fails exactly when some `offer` element with an `id`
      has a `price` child whose trimmed text is not a decimal. On success
      every vendor code, name, category id and currency code is a fixed
      point of `trim()`. */
  lemma {:induction false} OffersOutcome(root: Element)
    ensures var es := SectionElements(root, "offers", "offer");
      OffersOf(root).Err? <==>
        exists i :: 0 <= i < |es| && "id" in es[i].attrs && ExtractChildText(es[i], "price").Some?
                    && ParseDecimal(Trim(ExtractChildText(es[i], "price").value)).None?
    ensures OffersOf(root).Ok? ==>
      forall k :: 0 <= k < |OffersOf(root).value| ==> OfferTrimmed(OffersOf(root).value[k])
    ensures OffersOf(root).Ok? ==>
      |OffersOf(root).value| == EmitCount(OfferStep, SectionElements(root, "offers", "offer"))
  {
    var es := SectionElements(root, "offers", "offer");
    ExtractOkIff(OfferStep, es);
    ExtractProvenance(OfferStep, es);
    ExtractLength(OfferStep, es);
    forall i | 0 <= i < |es| {
      OfferRules(es[i]);
    }
  }

  predicate OfferTrimmed(o: OfferData) {
    && IsTrimmed(o.vendorCode)
    && IsTrimmed(o.name)
    && (o.categoryId.Some? ==> IsTrimmed(o.categoryId.value))
    && (o.currencyCode.Some? ==> IsTrimmed(o.currencyCode.value))
  }

  /** A one-offer catalog: `yml_catalog` / `shop` / `offers` / `offer id="V1"`
      with a name and a padded price, and no category or currency child. */
  function WidgetOffer(): Element {
    Element("offer", map["id" := "V1"],
      [Elem(Element("name", map[], [Text("Widget")])), Elem(Element("price", map[], [Text(" 9.99 ")]))])
  }

  function CatalogShop(): Element {
    Element("shop", map[], [Elem(Element("offers", map[], [Elem(WidgetOffer())]))])
  }

  function CatalogWithOneOffer(): Element {
    Element("yml_catalog", map[], [Elem(CatalogShop())])
  }

  lemma {:induction false} WidgetOfferSection()
    ensures SectionElements(CatalogWithOneOffer(), "offers", "offer") == [WidgetOffer()]
  {
    var root := CatalogWithOneOffer();
    assert Property([root], "shop") == [CatalogShop()];
    assert Property([CatalogShop()], "offers") == [CatalogShop().children[0].element];
  }

  lemma {:induction false} WidgetOfferChildren()
    ensures ExtractChildText(WidgetOffer(), "name") == Some("Widget")
    ensures ExtractChildText(WidgetOffer(), "price") == Some(" 9.99 ")
    ensures ExtractChildText(WidgetOffer(), "categoryId") == None
    ensures ExtractChildText(WidgetOffer(), "currencyId") == None
  {
    var name := Element("name", map[], [Text("Widget")]);
    var price := Element("price", map[], [Text(" 9.99 ")]);
    NameAndPriceChildren(WidgetOffer(), name, price);
    SingleText(name, "Widget");
    SingleText(price, " 9.99 ");
  }

  /** An element whose only children are a `name` and a `price` element. */
  lemma {:induction false} NameAndPriceChildren(e: Element, name: Element, price: Element)
    requires e.children == [Elem(name), Elem(price)] && name.name == "name" && price.name == "price"
    ensures ExtractChildText(e, "name") == Some(ElementText(name))
    ensures ExtractChildText(e, "price") == Some(ElementText(price))
    ensures ExtractChildText(e, "categoryId") == None
    ensures ExtractChildText(e, "currencyId") == None
  {
    ExtractChildTextSpec(e, "name");
    ExtractChildTextSpec(e, "price");
    ExtractChildTextSpec(e, "categoryId");
    ExtractChildTextSpec(e, "currencyId");
    assert NamedChildren(e.children, "name") == [name];
    assert NamedChildren(e.children, "price") == [price];
  }

  lemma {:induction false} SingleText(e: Element, s: string)
    requires e.children == [Text(s)]
    ensures ElementText(e) == s
  {
    assert e.children[1..] == [];
    assert NodesText(e.children) == NodeText(Text(s)) + NodesText([]);
    assert s + "" == s;
  }

  lemma {:induction false} WidgetPrice()
    ensures Trim(" 9.99 ") == "9.99"
    ensures ParseDecimal("9.99") == Some(Decimal(999, 2))
  {
    var s := "9.99";
    assert DotIndex(s) == 1 by {
      assert s[1..] == ".99";
    }
    assert s[..1] + s[2..] == "999";
    assert DigitsValue("999") == 999 by {
      assert "999"[..2] == "99" && "99"[..1] == "9";
    }
  }

  /** An offer with an `id`, a `name` and a `price` child and no other
      child yields its trimmed fields and the parsed price. */
  lemma {:induction false} OfferWithNameAndPrice(e: Element, price: Decimal)
    requires "id" in e.attrs
    requires ExtractChildText(e, "name").Some? && ExtractChildText(e, "price").Some?
    requires ExtractChildText(e, "categoryId").None? && ExtractChildText(e, "currencyId").None?
    requires ParseDecimal(Trim(ExtractChildText(e, "price").value)) == Some(price)
    ensures OfferStep(e) == Emit(OfferData(Trim(e.attrs["id"]), Trim(ExtractChildText(e, "name").value), None, Some(price), None))
  {
    OfferRules(e);
  }

  /** The shop is the root's direct `shop` child; the price is read after
      trimming, and the missing children give null fields. */
  lemma {:induction false} CatalogWithOneOfferParses()
    ensures OffersOf(CatalogWithOneOffer()) == Ok([OfferData("V1", "Widget", None, Some(Decimal(999, 2)), None)])
  {
    WidgetOfferSection();
    WidgetOfferChildren();
    WidgetPrice();
    SingleOffer(SectionElements(CatalogWithOneOffer(), "offers", "offer"), WidgetOffer());
  }

  lemma {:induction false} SingleOffer(es: seq<Element>, e: Element)
    requires es == [e] && "id" in e.attrs && e.attrs["id"] == "V1"
    requires ExtractChildText(e, "name") == Some("Widget")
    requires ExtractChildText(e, "price") == Some(" 9.99 ")
    requires ExtractChildText(e, "categoryId") == None
    requires ExtractChildText(e, "currencyId") == None
    requires Trim(" 9.99 ") == "9.99" && ParseDecimal("9.99") == Some(Decimal(999, 2))
    ensures Extract(OfferStep, es) == Ok([OfferData("V1", "Widget", None, Some(Decimal(999, 2)), None)])
  {
    assert Trim("V1") == "V1" && Trim("Widget") == "Widget" by {
      TrimFixedPoint("V1");
      TrimFixedPoint("Widget");
    }
    var record := OfferData("V1", "Widget", None, Some(Decimal(999, 2)), None);
    OfferWithNameAndPrice(e, Decimal(999, 2));
    assert OfferStep(es[0]) == Emit(record);
    assert Extract(OfferStep, es[1..]) == Ok([]) by {
      assert es[1..] == [];
    }
    assert [record] + [] == [record];
  }

  /** A document whose root element is `shop` itself: the lookup searches the
      root's children, so this shop is not found and nothing is parsed. */
  lemma {:induction false} ShopAsRootIsNotFound(shop: Element)
    requires shop.name == "shop"
    requires forall n :: n in shop.children ==> !IsChildNamed(n, "shop") && !IsChildNamed(n, "yml_catalog")
    ensures ShopNode(shop).None?
    ensures CurrenciesOf(shop) == Ok([]) && CategoriesOf(shop) == Ok([]) && OffersOf(shop) == Ok([])
  {
    HasNodeMeaning([shop], "shop");
    HasNodeMeaning([shop], "yml_catalog");
    HasNodeMeaning(Property([shop], "yml_catalog"), "shop");
    ShopNodeLookup(shop);
    EmptyWithoutSection(shop);
  }

  /** An empty `<price></price>` has the text "", which is no decimal: the
      whole offers parse fails rather than the price being taken as null. */
  lemma {:induction false} EmptyPriceAborts(e: Element)
    requires "id" in e.attrs
    requires NamedChildren(e.children, "price") == [Element("price", map[], [])]
    ensures OfferStep(e) == Abort(NumberFormat(""))
  {
    ExtractChildTextSpec(e, "price");
    assert ElementText(Element("price", map[], [])) == "";
    assert Trim("") == "";
  }

  /** Blank attributes and text are not rejected: a currency with a blank
      `id` gets the empty code, and a category whose text is only blanks gets
      the empty name (the emptiness test comes before trimming). `XmlSlurper`
      drops whitespace-only text by default, so such a category only arises
      in a tree built otherwise. */
  lemma {:induction false} BlankValuesAccepted(currency: Element, category: Element)
    requires currency.attrs == map["id" := "  ", "rate" := "1"]
    requires category.attrs == map["id" := "c1"] && ElementText(category) == "  "
    ensures CurrencyStep(currency) == Emit(CurrencyData("", Decimal(1, 0)))
    ensures CategoryStep(category) == Emit(CategoryData("c1", ""))
  {
    assert Trim("  ") == "" by {
      TrimEmptyIffBlank("  ");
    }
    assert Trim("1") == "1" && Trim("c1") == "c1" by {
      TrimFixedPoint("1");
      TrimFixedPoint("c1");
    }
    assert ParseDecimal("1") == Some(Decimal(1, 0)) by {
      assert DotIndex("1") == 1;
      assert "1"[..1] + "" == "1";
      assert DigitsValue("1") == 1 by {
        assert "1"[..0] == "";
      }
    }
  }
}
