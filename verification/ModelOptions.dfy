/** The model options offered to the client, and reading the chosen one back
    (crates/oc-acp/src/config_option.rs). */
module ModelOptions {
  import opened Wrappers
  import opened Text
  import opened ModelSelection

  datatype SelectOption = SelectOption(value: string, name: string)

  /** What an option stands for. */
  datatype Choice = Choice(provider: Provider, model: Model, variant: Option<string>)

  // ---------- What is offered ----------

  function Models(entries: seq<Entry>): seq<Model> {
    if entries == [] then [] else [entries[0].model] + Models(entries[1..])
  }

  function InsertByName(m: Model, sorted: seq<Model>): seq<Model> {
    if sorted == [] || !StringLess(sorted[0].name, m.name) then [m] + sorted
    else [sorted[0]] + InsertByName(m, sorted[1..])
  }

  /** The stable sort by name. */
  function SortByName(models: seq<Model>): seq<Model> {
    if models == [] then [] else InsertByName(models[0], SortByName(models[1..]))
  }

  function VariantChoices(p: Provider, m: Model, variants: seq<string>): seq<Choice> {
    if variants == [] then []
    else
      (if variants[0] == DEFAULT_VARIANT then [] else [Choice(p, m, Some(variants[0]))])
      + VariantChoices(p, m, variants[1..])
  }

  function ModelChoices(p: Provider, m: Model, offer: bool): seq<Choice> {
    [Choice(p, m, None)] + if offer && m.variants.Some? then VariantChoices(p, m, m.variants.value) else []
  }

  function ProviderChoices(p: Provider, models: seq<Model>, offer: bool): seq<Choice> {
    if models == [] then [] else ModelChoices(p, models[0], offer) + ProviderChoices(p, models[1..], offer)
  }

  function OfProvider(p: Provider, offer: bool): seq<Choice> {
    ProviderChoices(p, SortByName(Models(p.models)), offer)
  }

  function Choices(providers: seq<Provider>, offer: bool): seq<Choice> {
    if providers == [] then []
    else OfProvider(providers[0], offer) + Choices(providers[1..], offer)
  }

  function ValueOf(c: Choice): string {
    var base := c.provider.id + "/" + c.model.id;
    match c.variant case None => base case Some(v) => base + "/" + v
  }

  /** `title` is how a variant is written in an option's name. */
  function OptionOf(c: Choice, title: string -> string): SelectOption {
    var name := c.provider.name + "/" + c.model.name;
    SelectOption(ValueOf(c), match c.variant case None => name case Some(v) => name + " (" + title(v) + ")")
  }

  function Shown(choices: seq<Choice>, title: string -> string): seq<SelectOption> {
    if choices == [] then [] else [OptionOf(choices[0], title)] + Shown(choices[1..], title)
  }

  lemma {:induction false} ShownAppend(a: seq<Choice>, b: seq<Choice>, title: string -> string)
    ensures Shown(a + b, title) == Shown(a, title) + Shown(b, title)
  {
    if a == [] {
      assert [] + b == b;
    } else {
      assert (a + b)[0] == a[0] && (a + b)[1..] == a[1..] + b;
      ShownAppend(a[1..], b, title);
    }
  }

  lemma {:induction false} ChoicesSnoc(providers: seq<Provider>, p: Provider, offer: bool)
    ensures Choices(providers + [p], offer) == Choices(providers, offer) + OfProvider(p, offer)
  {
    var all := providers + [p];
    if providers == [] {
      assert all[1..] == [];
    } else {
      assert all[1..] == providers[1..] + [p];
      ChoicesSnoc(providers[1..], p, offer);
    }
  }

  lemma {:induction false} ProviderChoicesSnoc(p: Provider, models: seq<Model>, m: Model, offer: bool)
    ensures ProviderChoices(p, models + [m], offer) == ProviderChoices(p, models, offer) + ModelChoices(p, m, offer)
  {
    var all := models + [m];
    if models == [] {
      assert all[1..] == [];
    } else {
      assert all[1..] == models[1..] + [m];
      ProviderChoicesSnoc(p, models[1..], m, offer);
    }
  }

  lemma {:induction false} VariantChoicesSnoc(p: Provider, m: Model, variants: seq<string>, v: string)
    ensures VariantChoices(p, m, variants + [v]) ==
      VariantChoices(p, m, variants) + if v == DEFAULT_VARIANT then [] else [Choice(p, m, Some(v))]
  {
    var all := variants + [v];
    if variants == [] {
      assert all[1..] == [];
    } else {
      assert all[1..] == variants[1..] + [v];
      VariantChoicesSnoc(p, m, variants[1..], v);
    }
  }

  method BuildModelSelectOptions(providers: seq<Provider>, offer: bool, title: string -> string)
    returns (options: seq<SelectOption>)
    ensures options == Shown(Choices(providers, offer), title)
  {
    options := [];
    for i := 0 to |providers|
      invariant options == Shown(Choices(providers[..i], offer), title)
    {
      hide Choices, Shown, OfProvider;
      assert providers[..i + 1] == providers[..i] + [providers[i]];
      ChoicesSnoc(providers[..i], providers[i], offer);
      ShownAppend(Choices(providers[..i], offer), OfProvider(providers[i], offer), title);
      var more := OfferProvider(providers[i], offer, title);
      options := options + more;
    }
    assert providers[..|providers|] == providers;
  }

  /** What one provider adds. */
  method OfferProvider(p: Provider, offer: bool, title: string -> string) returns (options: seq<SelectOption>)
    ensures options == Shown(OfProvider(p, offer), title)
  {
    var models := SortByName(Models(p.models));
    options := OfferModels(p, models, offer, title);
  }

  method OfferModels(p: Provider, models: seq<Model>, offer: bool, title: string -> string)
    returns (options: seq<SelectOption>)
    ensures options == Shown(ProviderChoices(p, models, offer), title)
  {
    options := [];
    for j := 0 to |models|
      invariant options == Shown(ProviderChoices(p, models[..j], offer), title)
    {
      hide ProviderChoices, Shown, ModelChoices;
      assert models[..j + 1] == models[..j] + [models[j]];
      ProviderChoicesSnoc(p, models[..j], models[j], offer);
      ShownAppend(ProviderChoices(p, models[..j], offer), ModelChoices(p, models[j], offer), title);
      var more := OfferModel(p, models[j], offer, title);
      options := options + more;
    }
    assert models[..|models|] == models;
  }

  /** What one model adds. */
  method OfferModel(p: Provider, m: Model, offer: bool, title: string -> string) returns (options: seq<SelectOption>)
    ensures options == Shown(ModelChoices(p, m, offer), title)
  {
    var base := Choice(p, m, None);
    ShownOne(base, title);
    options := [OptionOf(base, title)];
    if !offer || m.variants.None? {
      assert [base] + [] == [base];
      return;
    }
    var variants := m.variants.value;
    for k := 0 to |variants|
      invariant options == Shown([base] + VariantChoices(p, m, variants[..k]), title)
    {
      hide VariantChoices, Shown;
      var v := variants[k];
      assert variants[..k + 1] == variants[..k] + [v];
      VariantChoicesSnoc(p, m, variants[..k], v);
      if v != DEFAULT_VARIANT {
        var c := Choice(p, m, Some(v));
        ShownOne(c, title);
        ShownAppend([base] + VariantChoices(p, m, variants[..k]), [c], title);
        ConcatAssociative([base], VariantChoices(p, m, variants[..k]), [c]);
        options := options + [OptionOf(c, title)];
      } else {
        assert VariantChoices(p, m, variants[..k]) + [] == VariantChoices(p, m, variants[..k]);
      }
    }
    assert variants[..|variants|] == variants;
  }

  lemma ShownOne(c: Choice, title: string -> string)
    ensures Shown([c], title) == [OptionOf(c, title)]
  {
    assert [c][1..] == [];
  }

  // ---------- Which choices those are ----------

  ghost predicate Lists(p: Provider, m: Model) {
    exists e :: e in p.models && e.model == m
  }

  /** A model of a provider, or one of its variants other than the default if these are offered. */
  ghost predicate Offered(providers: seq<Provider>, offer: bool, c: Choice) {
    c.provider in providers && Lists(c.provider, c.model) && Choosable(c, offer)
  }

  ghost predicate Choosable(c: Choice, offer: bool) {
    match c.variant
    case None => true
    case Some(v) => offer && v != DEFAULT_VARIANT && c.model.variants.Some? && v in c.model.variants.value
  }

  lemma {:induction false} ChoicesAreOffered(providers: seq<Provider>, offer: bool, c: Choice)
    ensures c in Choices(providers, offer) <==> Offered(providers, offer, c)
  {
    if providers != [] {
      var p := providers[0];
      ChoicesAreOffered(providers[1..], offer, c);
      ProviderChoicesAre(p, SortByName(Models(p.models)), offer, c);
      SortKeeps(Models(p.models), c.model);
      ModelsAre(p.models, c.model);
    }
  }

  lemma {:induction false} ProviderChoicesAre(p: Provider, models: seq<Model>, offer: bool, c: Choice)
    ensures c in ProviderChoices(p, models, offer) <==>
      c.provider == p && c.model in models && c in ModelChoices(p, c.model, offer)
    ensures c in ModelChoices(p, c.model, offer) <==> c.provider == p && Choosable(c, offer)
  {
    if c.model.variants.Some? {
      VariantChoicesAre(p, c.model, c.model.variants.value, c);
    }
    if models != [] {
      ProviderChoicesAre(p, models[1..], offer, c);
      if models[0].variants.Some? {
        VariantChoicesAre(p, models[0], models[0].variants.value, c);
      }
    }
  }

  lemma {:induction false} VariantChoicesAre(p: Provider, m: Model, variants: seq<string>, c: Choice)
    ensures c in VariantChoices(p, m, variants) <==>
      (c.provider == p && c.model == m && c.variant.Some? && c.variant.value in variants
      && c.variant.value != DEFAULT_VARIANT)
  {
    if variants != [] {
      VariantChoicesAre(p, m, variants[1..], c);
    }
  }

  lemma {:induction false} ModelsAre(entries: seq<Entry>, m: Model)
    ensures m in Models(entries) <==> exists e :: e in entries && e.model == m
  {
    if entries != [] {
      ModelsAre(entries[1..], m);
      assert entries[0] in entries;
    }
  }

  lemma {:induction false} SortKeeps(models: seq<Model>, m: Model)
    ensures m in SortByName(models) <==> m in models
  {
    if models != [] {
      SortKeeps(models[1..], m);
      InsertKeeps(models[0], SortByName(models[1..]), m);
    }
  }

  lemma {:induction false} InsertKeeps(x: Model, sorted: seq<Model>, m: Model)
    ensures m in InsertByName(x, sorted) <==> m == x || m in sorted
  {
    if sorted != [] && StringLess(sorted[0].name, x.name) {
      InsertKeeps(x, sorted[1..], m);
    }
  }

  ghost predicate NameOrder(models: seq<Model>) {
    forall i, j :: 0 <= i < j < |models| ==> !StringLess(models[j].name, models[i].name)
  }

  lemma {:induction false} SortsByName(models: seq<Model>)
    ensures NameOrder(SortByName(models))
  {
    if models != [] {
      SortsByName(models[1..]);
      InsertKeepsOrder(models[0], SortByName(models[1..]));
    }
  }

  lemma {:induction false} InsertKeepsOrder(m: Model, sorted: seq<Model>)
    requires NameOrder(sorted)
    ensures NameOrder(InsertByName(m, sorted))
  {
    if sorted != [] {
      var r := InsertByName(m, sorted);
      if StringLess(sorted[0].name, m.name) {
        InsertKeepsOrder(m, sorted[1..]);
        forall j | 0 < j < |r|
          ensures !StringLess(r[j].name, sorted[0].name)
        {
          InsertKeeps(m, sorted[1..], r[j]);
          assert r[j] == m || r[j] in sorted[1..];
          StringLessTotal(sorted[0].name, m.name);
        }
      } else {
        forall j | 0 < j < |r|
          ensures !StringLess(r[j].name, m.name)
        {
          StringLessTotal(sorted[0].name, sorted[0].name);
          NotLessThrough(r[j].name, sorted[0].name, m.name);
        }
      }
    }
  }

  lemma NotLessThrough(a: string, b: string, c: string)
    requires !StringLess(a, b) && !StringLess(b, c)
    ensures !StringLess(a, c)
  {
    if StringLess(a, c) {
      StringLessTotal(a, b);
      StringLessTotal(b, c);
      if a != b && b != c {
        StringLessTransitive(c, b, a);
        StringLessTotal(a, c);
      }
    }
  }

  /** The options, by value and name: each listed model, and each of its variants but the default one if
      variants are offered; and nothing else. */
  lemma OptionsAre(providers: seq<Provider>, offer: bool, title: string -> string, o: SelectOption)
    ensures o in Shown(Choices(providers, offer), title) <==>
      exists p, m :: p in providers && Lists(p, m) && IsOptionOf(p, m, offer, title, o)
  {
    hide Choices, Shown, OptionOf, IsOptionOf, Offered;
    ShownAre(Choices(providers, offer), title);
    if o in Shown(Choices(providers, offer), title) {
      var c :| c in Choices(providers, offer) && o == OptionOf(c, title);
      ChoicesAreOffered(providers, offer, c);
      ChoiceIsOption(providers, offer, title, c);
    }
    if p, m :| p in providers && Lists(p, m) && IsOptionOf(p, m, offer, title, o) {
      var c := OptionIsChoice(providers, offer, title, p, m, o);
      ChoicesAreOffered(providers, offer, c);
    }
  }

  lemma ChoiceIsOption(providers: seq<Provider>, offer: bool, title: string -> string, c: Choice)
    requires Offered(providers, offer, c)
    ensures c.provider in providers && Lists(c.provider, c.model)
    ensures IsOptionOf(c.provider, c.model, offer, title, OptionOf(c, title))
  {
    hide Lists;
    if c.variant.Some? {
      assert IsVariantOption(c.provider, c.model, c.variant.value, offer, title, OptionOf(c, title));
    }
  }

  lemma OptionIsChoice(
    providers: seq<Provider>, offer: bool, title: string -> string, p: Provider, m: Model, o: SelectOption)
    returns (c: Choice)
    requires p in providers && Lists(p, m) && IsOptionOf(p, m, offer, title, o)
    ensures Offered(providers, offer, c) && o == OptionOf(c, title)
  {
    hide Lists;
    if o == SelectOption(p.id + "/" + m.id, p.name + "/" + m.name) {
      c := Choice(p, m, None);
    } else {
      var v :| IsVariantOption(p, m, v, offer, title, o);
      c := Choice(p, m, Some(v));
    }
  }

  ghost predicate IsOptionOf(p: Provider, m: Model, offer: bool, title: string -> string, o: SelectOption) {
    || o == SelectOption(p.id + "/" + m.id, p.name + "/" + m.name)
    || exists v :: IsVariantOption(p, m, v, offer, title, o)
  }

  ghost predicate IsVariantOption(
    p: Provider, m: Model, v: string, offer: bool, title: string -> string, o: SelectOption)
  {
    && offer && m.variants.Some? && v in m.variants.value && v != "default"
    && o == SelectOption(p.id + "/" + m.id + "/" + v, p.name + "/" + m.name + " (" + title(v) + ")")
  }

  // ---------- Reading back ----------

  ghost predicate Keyed(p: Provider) {
    && (forall e :: e in p.models ==> e.key == e.model.id)
    && forall i, j :: 0 <= i < j < |p.models| ==> p.models[i].key != p.models[j].key
  }

  /** Providers with distinct ids, each listing its models under their own ids. */
  ghost predicate Proper(providers: seq<Provider>) {
    DistinctProviders(providers) && forall p :: p in providers ==> Keyed(p)
  }

  /** The choice's text belongs to its provider, and can only be divided as it was joined. */
  ghost predicate Unambiguous(providers: seq<Provider>, c: Choice) {
    && Owner(providers, ValueOf(c)) == Some(c.provider)
    && (c.variant.Some? ==>
      '/' !in c.variant.value && Get(c.provider.models, c.model.id + "/" + c.variant.value).None?)
  }

  ghost predicate ReadsBack(providers: seq<Provider>, c: Choice) {
    ParseModelSelection(ValueOf(c), providers) == Selection(c.provider.id, c.model.id, c.variant)
  }

  /** A model of a provider with, perhaps, one of its variants. */
  ghost predicate Listed(providers: seq<Provider>, c: Choice) {
    && c.provider in providers && Lists(c.provider, c.model)
    && (c.variant.Some? ==> c.model.variants.Some? && c.variant.value in c.model.variants.value)
  }

  lemma {:induction false} GetListed(models: seq<Entry>, e: Entry)
    requires e in models && forall i, j :: 0 <= i < j < |models| ==> models[i].key != models[j].key
    ensures Get(models, e.key) == Some(e.model)
  {
    if models[0].key != e.key {
      GetListed(models[1..], e);
    } else {
      assert models[0] == e;
    }
  }

  lemma {:induction false} ListedIds(providers: seq<Provider>, p: Provider, q: Provider)
    requires DistinctProviders(providers) && p in providers && q in providers && p.id == q.id
    ensures p == q && FindProvider(providers, p.id) == Some(p)
  {
    if providers[0].id != p.id {
      ListedIds(providers[1..], p, q);
    } else {
      assert providers[0] == p && providers[0] == q;
    }
  }

  lemma ReadsBackIff(providers: seq<Provider>, c: Choice)
    requires Proper(providers) && Listed(providers, c)
    ensures ReadsBack(providers, c) <==> Unambiguous(providers, c)
  {
    var e :| e in c.provider.models && e.model == c.model;
    GetListed(c.provider.models, e);
    var owner := Owner(providers, ValueOf(c));
    if owner.Some? && owner.value.id == c.provider.id {
      ListedIds(providers, owner.value, c.provider);
    }
    if c.variant.None? {
      BaseReadsBackIff(c.provider.id, c.model.id, providers);
      if owner.None? {
        OwnerOfListed(providers, c.provider, c.model.id);
      }
    } else {
      VariantReadsBackIff(c.provider.id, c.model.id, c.variant.value, providers);
    }
  }

  lemma {:induction false} OwnerOfListed(providers: seq<Provider>, p: Provider, rest: string)
    requires p in providers
    ensures Owner(providers, p.id + "/" + rest).Some?
  {
    var value := p.id + "/" + rest;
    assert p.id + "/" <= value;
    if !(providers[0].id + "/" <= value) {
      OwnerOfListed(providers[1..], p, rest);
    }
  }

  /** Every option offered is read back as what it stands for exactly when none is ambiguous. */
  lemma OptionsReadBackIff(providers: seq<Provider>, offer: bool)
    requires Proper(providers)
    ensures (forall c :: c in Choices(providers, offer) ==> ReadsBack(providers, c)) <==>
      (forall c :: c in Choices(providers, offer) ==> Unambiguous(providers, c))
  {
    forall c | c in Choices(providers, offer)
      ensures ReadsBack(providers, c) <==> Unambiguous(providers, c)
    {
      ChoicesAreOffered(providers, offer, c);
      ReadsBackIff(providers, c);
    }
  }

  ghost predicate NoSlashes(m: Model) {
    m.variants.Some? ==> forall v :: v in m.variants.value ==> '/' !in v
  }

  /** No model is listed under another's id followed by one of its variants. */
  ghost predicate NoShadows(p: Provider) {
    forall m, v :: Lists(p, m) && m.variants.Some? && v in m.variants.value ==>
      Get(p.models, m.id + "/" + v).None?
  }

  /** Provider ids that do not begin one another, variants without a slash and no shadowed variant
      leave nothing ambiguous. */
  lemma PlainIdsUnambiguous(providers: seq<Provider>, c: Choice)
    requires PrefixFree(providers) && Listed(providers, c)
    requires forall p :: p in providers ==> NoShadows(p) && forall m :: Lists(p, m) ==> NoSlashes(m)
    ensures Unambiguous(providers, c)
  {
    match c.variant
    case None =>
      OwnerFound(providers, c.provider, c.model.id);
    case Some(v) =>
      OwnerFound(providers, c.provider, c.model.id + "/" + v);
      assert ValueOf(c) == c.provider.id + "/" + (c.model.id + "/" + v);
  }

  // ---------- The current value ----------

  /** Whether a model's variants are offered, and there are any. */
  predicate Offers(m: Model, offer: Option<bool>) {
    offer == Some(true) && m.variants.Some? && m.variants.value != []
  }

  /** The variant the client picked is one of the model's. */
  predicate Picked(m: Model, variant: Option<string>) {
    variant.Some? && m.variants.Some? && variant.value in m.variants.value
  }

  /** The default is the variant in force: picked, or there to fall back on when none is. */
  predicate DefaultInForce(m: Model, variant: Option<string>) {
    && m.variants.Some? && DEFAULT_VARIANT in m.variants.value
    && (Picked(m, variant) ==> variant == Some(DEFAULT_VARIANT))
  }

  function Current(
    providers: seq<Provider>, p: Provider, m: Model, variant: Option<string>, offer: Option<bool>): string
  {
    FormatCurrentModelId(p.id, m.id, variant, VariantsForModel(providers, p.id, m.id), offer)
  }

  /** What the current value of a listed model names: the variant picked if it is one of the model's, else
      the default one if the model has it, else the first. */
  lemma CurrentNames(providers: seq<Provider>, p: Provider, m: Model, variant: Option<string>, offer: Option<bool>)
    returns (c: Choice)
    requires Proper(providers) && p in providers && Lists(p, m)
    ensures Current(providers, p, m, variant, offer) == ValueOf(c) && Listed(providers, c)
    ensures c.provider == p && c.model == m
    ensures !Offers(m, offer) ==> c.variant == None
    ensures Offers(m, offer) && Picked(m, variant) ==> c.variant == variant
    ensures Offers(m, offer) && !Picked(m, variant) && DEFAULT_VARIANT in m.variants.value ==>
      c.variant == Some(DEFAULT_VARIANT)
    ensures Offers(m, offer) && !Picked(m, variant) && DEFAULT_VARIANT !in m.variants.value ==>
      c.variant == Some(m.variants.value[0])
  {
    var e :| e in p.models && e.model == m;
    GetListed(p.models, e);
    ListedIds(providers, p, p);
    c := Choice(p, m, if Offers(m, offer) then Some(SelectVariant(variant, m.variants.value)) else None);
  }

  /** The current value is read back as the model and the variant in force exactly when that is
      unambiguous. */
  lemma CurrentReadsBackIff(
    providers: seq<Provider>, p: Provider, m: Model, variant: Option<string>, offer: Option<bool>, c: Choice)
    requires Proper(providers) && p in providers && Lists(p, m)
    requires Listed(providers, c) && c.provider == p && c.model == m
    requires if !Offers(m, offer) then c.variant == None
             else if Picked(m, variant) then c.variant == variant
             else if DEFAULT_VARIANT in m.variants.value then c.variant == Some(DEFAULT_VARIANT)
             else c.variant == Some(m.variants.value[0])
    ensures
      ParseModelSelection(Current(providers, p, m, variant, offer), providers) == Selection(p.id, m.id, c.variant) <==>
      Unambiguous(providers, c)
  {
    var named := CurrentNames(providers, p, m, variant, offer);
    assert named == c;
    ReadsBackIff(providers, c);
  }

  /** Different choices with one text are not both unambiguous. */
  lemma SameTextAmbiguous(providers: seq<Provider>, c: Choice, d: Choice)
    requires Proper(providers) && Listed(providers, c) && Listed(providers, d)
    requires ValueOf(c) == ValueOf(d) && c != d
    ensures !Unambiguous(providers, c) || !Unambiguous(providers, d)
  {
    ReadsBackIff(providers, c);
    ReadsBackIff(providers, d);
    if c.provider.id == d.provider.id && c.model.id == d.model.id {
      ListedIds(providers, c.provider, d.provider);
      var e :| e in c.provider.models && e.model == c.model;
      var f :| f in d.provider.models && f.model == d.model;
      GetListed(c.provider.models, e);
      GetListed(d.provider.models, f);
    }
  }

  ghost predicate NoneAmbiguous(providers: seq<Provider>) {
    forall c :: Listed(providers, c) ==> Unambiguous(providers, c)
  }

  ghost predicate HasText(providers: seq<Provider>, offer: bool, text: string) {
    exists c :: Offered(providers, offer, c) && ValueOf(c) == text
  }

  /** The current value is among the options exactly when the default is not the variant in force, as it is
      not offered as such, or some other choice offered happens to have its text. */
  lemma CurrentOfferedIff(
    providers: seq<Provider>, p: Provider, m: Model, variant: Option<string>, offer: bool, title: string -> string)
    requires Proper(providers) && p in providers && Lists(p, m)
    ensures
      var current := Current(providers, p, m, variant, Some(offer));
      && ((exists o :: o in Shown(Choices(providers, offer), title) && o.value == current) <==>
        !(offer && DefaultInForce(m, variant)) || HasText(providers, offer, current))
      && (NoneAmbiguous(providers) && offer && DefaultInForce(m, variant) ==> !HasText(providers, offer, current))
  {
    var mine := CurrentNames(providers, p, m, variant, Some(offer));
    ShownAre(Choices(providers, offer), title);
    forall c
      ensures c in Choices(providers, offer) <==> Offered(providers, offer, c)
    {
      ChoicesAreOffered(providers, offer, c);
    }
    if mine.variant != Some(DEFAULT_VARIANT) {
      assert Offered(providers, offer, mine);
    } else if c :| Offered(providers, offer, c) && ValueOf(c) == ValueOf(mine) {
      SameTextAmbiguous(providers, c, mine);
    }
  }

  lemma {:induction false} ShownAre(choices: seq<Choice>, title: string -> string)
    ensures forall o :: o in Shown(choices, title) ==> exists c :: c in choices && o == OptionOf(c, title)
    ensures forall c :: c in choices ==> OptionOf(c, title) in Shown(choices, title)
  {
    if choices != [] {
      ShownAre(choices[1..], title);
      assert choices[0] in choices;
    }
  }
}
