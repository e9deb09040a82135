/**
 * The shop's product tables: products keyed by their shop id, and product descriptions keyed
 * by product and language. Products are upserted; a description is inserted once and a
 * second insert for the same product and language, or one for an unknown product, is
 * ignored; a translation is upserted by the product found by its code. The getters read the
 * tables back and check their arguments.
 */
module ProductStore {
  import opened Wrappers
  import opened Text
  import Translation

  /** The sixteen columns of a product besides its shop id; any of them may be NULL. */
  datatype Product = Product(
    code: Option<string>, ean: Option<string>, manufacturer: Option<string>,
    stock: Option<int>, weight: Option<int>,
    availability: Option<string>, availabilityType: Option<string>, unit: Option<string>,
    actionCurrently: Option<bool>, active: Option<bool>, archived: Option<bool>, canAddToBasket: Option<bool>,
    adult: Option<bool>, isSet: Option<bool>, inSet: Option<bool>, excludeFromSearch: Option<bool>)

  /** The nine content columns of a description. */
  datatype Description = Description(
    title: Option<string>, shortDescription: Option<string>, longDescription: Option<string>, url: Option<string>,
    seoTitle: Option<string>, seoDescription: Option<string>, seoUrl: Option<string>, seoKeywords: Option<string>,
    unit: Option<string>)

  /** A description row with a NULL product or language: such rows never clash with any other row. */
  datatype LooseDescription = LooseDescription(productId: Option<int>, language: Option<string>, content: Description)

  /** The columns get_product_core selects. */
  datatype ProductCore = ProductCore(
    productId: int, code: Option<string>, ean: Option<string>, manufacturer: Option<string>,
    stock: Option<int>, weight: Option<int>, availability: Option<string>, availabilityType: Option<string>,
    unit: Option<string>)

  // ---------------------------------------------------------------------------
  // The tables as values
  // ---------------------------------------------------------------------------

  /** Some product has the given code. */
  predicate HasCode(products: map<int, Product>, code: string) {
    exists pid | pid in products :: products[pid].code == Some(code)
  }

  /** The stored code of a product; NULL when the product is absent or has no code. */
  function CodeById(products: map<int, Product>, pid: int): (r: Option<string>)
    ensures pid !in products ==> r.None?
    ensures pid in products ==> r == products[pid].code
  {
    if pid in products then products[pid].code else None
  }

  /** The language of a stored description: lower-cased, with Czech spelt "cz". */
  function DescriptionLanguage(language: string): (r: string)
    ensures r != "cs"
    ensures forall i | 0 <= i < |r| :: !('A' <= r[i] <= 'Z')
    ensures Lower(language) == "cs" ==> r == "cz"
    ensures Lower(language) != "cs" ==> r == Lower(language)
  {
    if Lower(language) == "cs" then "cz" else Lower(language)
  }

  /** On a text without whitespace at its ends, the description language is the translation's language code. */
  lemma DescriptionLanguageIsMigrated(language: string)
    requires language == [] || (!IsSpace(language[0]) && !IsSpace(language[|language| - 1]))
    ensures DescriptionLanguage(language) == Translation.MigrateLanguageCode(language)
  {
    StripOfStripped(language);
  }

  /** A description language is its own description language. */
  lemma DescriptionLanguageIdempotent(language: string)
    ensures DescriptionLanguage(DescriptionLanguage(language)) == DescriptionLanguage(language)
  {
    LowerKeepsSpace(language);
  }

  /** The stored keyword text: the keywords joined by ", ", or "" when there are none. */
  function KeywordsText(keywords: seq<string>): (r: string)
    ensures keywords == [] ==> r == ""
    ensures |keywords| == 1 ==> r == keywords[0]
  {
    if |keywords| > 0 then Join(", ", keywords) else ""
  }

  /** In a keyword followed by ", " and more text, the first ", " is the one after the keyword. */
  lemma FirstSeparator(a: string, b: string)
    requires !Contains(a, ", ")
    ensures IndexFrom(a + ", " + b, ", ", 0) == Some(|a|)
  {
    var s := a + ", " + b;
    assert s[|a|..|a| + 2] == ", ";
    forall j | 0 <= j < |a| ensures !OccursAt(s, ", ", j) {
      if j + 2 <= |a| {
        assert a[j..j + 2] == s[j..j + 2];
        assert !OccursAt(a, ", ", j);
      } else {
        assert s[j + 1] == s[|a|] == ',';
        assert s[j..j + 2][1] == ',';
      }
    }
    assert OccursAt(s, ", ", |a|);
    var r := IndexFrom(s, ", ", 0);
    assert r.Some?;
    assert r.value >= |a|;
    assert r.value <= |a|;
  }

  /** A text without ", " does not split. */
  lemma SplitWithoutSeparator(a: string)
    requires !Contains(a, ", ")
    ensures Split(a, ", ") == [a]
  {
    assert IndexFrom(a, ", ", 0).None?;
  }

  /** Keywords without ", " in them split back out of their stored text. */
  lemma {:induction false} KeywordsRoundTrip(keywords: seq<string>)
    requires |keywords| > 0 && forall k | 0 <= k < |keywords| :: !Contains(keywords[k], ", ")
    ensures Split(KeywordsText(keywords), ", ") == keywords
    decreases |keywords|
  {
    if |keywords| == 1 {
      SplitWithoutSeparator(keywords[0]);
    } else {
      var tail := keywords[1..];
      var rest := Join(", ", tail);
      var s := keywords[0] + ", " + rest;
      assert KeywordsText(keywords) == s;
      FirstSeparator(keywords[0], rest);
      assert s[..|keywords[0]|] == keywords[0];
      assert s[|keywords[0]| + 2..] == rest;
      assert forall k | 0 <= k < |tail| :: tail[k] == keywords[k + 1];
      KeywordsRoundTrip(tail);
      assert KeywordsText(tail) == rest;
      assert keywords == [keywords[0]] + tail;
    }
  }

  /** The products table after an upsert of one product. */
  function UpsertProduct(products: map<int, Product>, pid: int, p: Product): (r: map<int, Product>)
    ensures r.Keys == products.Keys + {pid}
    ensures r[pid] == p
    ensures forall q | q in products && q != pid :: r[q] == products[q]
  {
    products[pid := p]
  }

  /** Upserting the same product twice is upserting it once. */
  lemma UpsertProductIdempotent(products: map<int, Product>, pid: int, p: Product)
    ensures UpsertProduct(UpsertProduct(products, pid, p), pid, p) == UpsertProduct(products, pid, p)
  {
  }

  /**
   * The descriptions after an insert: the row is added only when its product is stored and
   * no row has its product and language; otherwise the constraint violation is swallowed.
   */
  function InsertDescription(descriptions: map<(int, string), Description>, products: map<int, Product>,
                             pid: int, language: string, d: Description): (r: map<(int, string), Description>)
    ensures (pid, language) in descriptions || pid !in products ==> r == descriptions
    ensures (pid, language) !in descriptions && pid in products ==> r == descriptions[(pid, language) := d]
  {
    if pid !in products || (pid, language) in descriptions then descriptions
    else descriptions[(pid, language) := d]
  }

  /** A second identical insert changes nothing. */
  lemma InsertDescriptionIdempotent(descriptions: map<(int, string), Description>, products: map<int, Product>,
                                    pid: int, language: string, d: Description)
    ensures var once := InsertDescription(descriptions, products, pid, language, d);
            InsertDescription(once, products, pid, language, d) == once
  {
  }

  /** A stored description is never replaced by an insert, whatever its content. */
  lemma InsertDescriptionKeepsStored(descriptions: map<(int, string), Description>, products: map<int, Product>,
                                     pid: int, language: string, d: Description, key: (int, string))
    requires key in descriptions
    ensures var r := InsertDescription(descriptions, products, pid, language, d);
            key in r && r[key] == descriptions[key]
  {
  }

  // ---------------------------------------------------------------------------
  // The store
  // ---------------------------------------------------------------------------

  class ProductDb {
    var products: map<int, Product>
    var descriptions: map<(int, string), Description>
    /** Description rows whose product or language is NULL, in insertion order. */
    var looseDescriptions: seq<LooseDescription>

    /** A connection to a database holding the given tables. */
    constructor(products0: map<int, Product>, descriptions0: map<(int, string), Description>)
      ensures products == products0 && descriptions == descriptions0 && looseDescriptions == []
    {
      products := products0;
      descriptions := descriptions0;
      looseDescriptions := [];
    }

    /** insert_product: the row of the id holds exactly the given values afterwards, whether it existed or not. */
    method InsertProduct(pid: int, p: Product)
      modifies this
      ensures products == UpsertProduct(old(products), pid, p)
      ensures descriptions == old(descriptions) && looseDescriptions == old(looseDescriptions)
    {
      products := products[pid := p];
    }

    /**
     * insert_product_description: the language lower-cased with "cs" made "cz", the keywords
     * joined; then inserted unless the product is unknown or already described in that language.
     */
    method InsertProductDescription(pid: int, language: string, title: Option<string>, shortDescription: Option<string>,
                                    longDescription: Option<string>, url: Option<string>, seoTitle: Option<string>,
                                    seoDescription: Option<string>, seoUrl: Option<string>, seoKeywords: seq<string>,
                                    unit: Option<string>)
      modifies this
      ensures descriptions == InsertDescription(old(descriptions), products, pid, DescriptionLanguage(language),
                                                Description(title, shortDescription, longDescription, url, seoTitle,
                                                            seoDescription, seoUrl, Some(KeywordsText(seoKeywords)), unit))
      ensures products == old(products) && looseDescriptions == old(looseDescriptions)
    {
      var lang := Lower(language);
      lang := if lang == "cs" then "cz" else lang;
      var keywords := if |seoKeywords| > 0 then Join(", ", seoKeywords) else "";
      var d := Description(title, shortDescription, longDescription, url, seoTitle, seoDescription, seoUrl,
                           Some(keywords), unit);
      if pid in products && (pid, lang) !in descriptions {
        descriptions := descriptions[(pid, lang) := d];
      }
    }

    /** get_product_code_by_id: the stored code, or None when there is no such product. */
    method GetProductCodeById(pid: int) returns (r: Option<string>)
      ensures r == CodeById(products, pid)
    {
      if pid in products {
        return products[pid].code;
      }
      return None;
    }

    /** get_product_id_by_code: None exactly when no product has the code; otherwise a product that has it. */
    method GetProductIdByCode(code: string) returns (r: Option<int>)
      ensures r.None? <==> !HasCode(products, code)
      ensures r.Some? ==> r.value in products && products[r.value].code == Some(code)
    {
      if HasCode(products, code) {
        var pid :| pid in products && products[pid].code == Some(code);
        return Some(pid);
      }
      return None;
    }

    /**
     * update_product_translation: the row of (the product with the code, the lower-cased
     * target language) gets the nine content columns of the translation, inserted or
     * overwritten; without such a product or language the key has a NULL and a new row is
     * added every time.
     */
    method UpdateProductTranslation(code: string, translations: map<string, string>)
      modifies this
      ensures products == old(products)
      ensures HasCode(products, code) && TargetLanguage(translations).Some? ==>
                && looseDescriptions == old(looseDescriptions)
                && exists pid | pid in products && products[pid].code == Some(code) ::
                     descriptions == old(descriptions)[(pid, TargetLanguage(translations).value) := TranslationContent(translations)]
      ensures !(HasCode(products, code) && TargetLanguage(translations).Some?) ==>
                && descriptions == old(descriptions)
                && |looseDescriptions| == |old(looseDescriptions)| + 1
                && looseDescriptions[..|old(looseDescriptions)|] == old(looseDescriptions)
                && var added := looseDescriptions[|old(looseDescriptions)|];
                   && added.language == TargetLanguage(translations)
                   && added.content == TranslationContent(translations)
                   && (added.productId.None? <==> !HasCode(products, code))
                   && (added.productId.Some? ==>
                         added.productId.value in products && products[added.productId.value].code == Some(code))
    {
      var pid := GetProductIdByCode(code);
      var lang := TargetLanguage(translations);
      var content := TranslationContent(translations);
      if pid.Some? && lang.Some? {
        descriptions := descriptions[(pid.value, lang.value) := content];
        assert exists p | p in products && products[p].code == Some(code) ::
          descriptions == old(descriptions)[(p, lang.value) := content] by {
          var p := pid.value;
          assert p in products && products[p].code == Some(code) &&
            descriptions == old(descriptions)[(p, lang.value) := content];
        }
      } else {
        looseDescriptions := looseDescriptions + [LooseDescription(pid, lang, content)];
      }
    }

    /** get_product_core: a falsy id raises ValueError; otherwise the core columns of the product, if it is stored. */
    method GetProductCore(pid: Option<int>) returns (r: Result<Option<ProductCore>>)
      ensures r.Err? <==> !TruthyId(pid)
      ensures r.Err? ==> r.error == ValueError("Product ID is required.")
      ensures r.Ok? ==> (r.value.None? <==> pid.value !in products)
      ensures r.Ok? && r.value.Some? ==> r.value.value == CoreOf(pid.value, products[pid.value])
    {
      if !TruthyId(pid) {
        return Err(ValueError("Product ID is required."));
      }
      if pid.value !in products {
        return Ok(None);
      }
      return Ok(Some(CoreOf(pid.value, products[pid.value])));
    }

    /**
     * get_product_details without the frames it assembles: exactly one of code and id must
     * be given (falsy counts as not given); a code is looked up first, and an unknown code
     * gives None; then the core of the product is read.
     */
    method GetProductDetails(code: Option<string>, pid: Option<int>) returns (r: Result<Option<Option<ProductCore>>>)
      ensures TruthyCode(code) == TruthyId(pid) ==> r == Err(ValueError(DetailsArgumentsMessage))
      ensures TruthyCode(code) && !TruthyId(pid) && !HasCode(products, code.value) ==> r == Ok(None)
      ensures TruthyId(pid) && !TruthyCode(code) ==>
                r == Ok(Some(if pid.value in products then Some(CoreOf(pid.value, products[pid.value])) else None))
      ensures TruthyCode(code) && !TruthyId(pid) && HasCode(products, code.value) ==>
                exists found | found in products && products[found].code == code ::
                  r == (if found == 0 then Err(ValueError("Product ID is required."))
                        else Ok(Some(Some(CoreOf(found, products[found])))))
    {
      if TruthyCode(code) == TruthyId(pid) {
        return Err(ValueError(DetailsArgumentsMessage));
      }
      var id := pid;
      if TruthyCode(code) {
        var found := GetProductIdByCode(code.value);
        if found.None? {
          return Ok(None);
        }
        id := found;
      }
      var core := GetProductCore(id);
      if core.Err? {
        return Err(core.error);
      }
      return Ok(Some(core.value));
    }
  }

  const DetailsArgumentsMessage: string := "Provide either code or product_id, never neither nor both."

  /** A product id is truthy when it is given and not 0. */
  predicate TruthyId(pid: Option<int>) {
    pid.Some? && pid.value != 0
  }

  /** A code is truthy when it is given and not empty. */
  predicate TruthyCode(code: Option<string>) {
    code.Some? && code.value != ""
  }

  /** The core columns of a stored product. */
  function CoreOf(pid: int, p: Product): (r: ProductCore)
    ensures r.productId == pid && r.code == p.code && r.unit == p.unit
  {
    ProductCore(pid, p.code, p.ean, p.manufacturer, p.stock, p.weight, p.availability, p.availabilityType, p.unit)
  }

  /** A column filled from a translation key: NULL exactly when the key is missing, otherwise the key's value. */
  predicate FromKey(translations: map<string, string>, key: string, column: Option<string>) {
    (column.Some? <==> key in translations) && (column.Some? ==> column.value == translations[key])
  }

  /** The nine content columns a translation supplies; a missing key gives NULL. */
  function TranslationContent(translations: map<string, string>): (r: Description)
    ensures FromKey(translations, "title", r.title)
    ensures FromKey(translations, "short_description", r.shortDescription)
    ensures FromKey(translations, "long_description", r.longDescription)
    ensures FromKey(translations, "url", r.url)
    ensures FromKey(translations, "seo_title", r.seoTitle)
    ensures FromKey(translations, "seo_description", r.seoDescription)
    ensures FromKey(translations, "seo_url", r.seoUrl)
    ensures FromKey(translations, "seo_keywords", r.seoKeywords)
    ensures FromKey(translations, "unit", r.unit)
  {
    Description(Get(translations, "title"), Get(translations, "short_description"), Get(translations, "long_description"),
                Get(translations, "url"), Get(translations, "seo_title"), Get(translations, "seo_description"),
                Get(translations, "seo_url"), Get(translations, "seo_keywords"), Get(translations, "unit"))
  }

  /** The target language of a translation, lower-cased, or None when it has none. */
  function TargetLanguage(translations: map<string, string>): (r: Option<string>)
    ensures r.Some? <==> "target_language" in translations
    ensures r.Some? ==> forall i | 0 <= i < |r.value| :: !('A' <= r.value[i] <= 'Z')
  {
    if "target_language" in translations then Some(Lower(translations["target_language"])) else None
  }

  /** dict.get: the value of the key, or None. */
  function Get(m: map<string, string>, key: string): (r: Option<string>)
    ensures r.Some? <==> key in m
    ensures r.Some? ==> r.value == m[key]
  {
    if key in m then Some(m[key]) else None
  }
}
