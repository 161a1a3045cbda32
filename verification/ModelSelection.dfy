/** Model ids as the client sees them: `provider/model` or `provider/model/variant`
    (crates/oc-acp/src/config_option.rs). */
module ModelSelection {
  import opened Wrappers
  import opened Text

  /** `variants` are the keys of the variant map, in its order. */
  datatype Model = Model(id: string, name: string, variants: Option<seq<string>>)

  datatype Entry = Entry(key: string, model: Model)

  /** `models` are the entries of the model map, in its order. */
  datatype Provider = Provider(id: string, name: string, models: seq<Entry>)

  datatype Selection = Selection(providerId: string, modelId: string, variant: Option<string>)

  const DEFAULT_VARIANT := "default"

  function Get(models: seq<Entry>, key: string): Option<Model> {
    if models == [] then None
    else if models[0].key == key then Some(models[0].model)
    else Get(models[1..], key)
  }

  // ---------- parse_model_selection ----------

  /** The first provider whose id and a slash begin the model id. */
  function Owner(providers: seq<Provider>, modelId: string): (r: Option<Provider>)
    ensures r.Some? ==> r.value in providers && r.value.id + "/" <= modelId
  {
    if providers == [] then None
    else if providers[0].id + "/" <= modelId then Some(providers[0])
    else Owner(providers[1..], modelId)
  }

  /** The position of the last slash. */
  function LastSlash(s: string): (r: Option<nat>)
    ensures r.Some? ==> r.value < |s| && s[r.value] == '/' && '/' !in s[r.value + 1..]
    ensures r.None? ==> '/' !in s
  {
    if s == [] then None
    else if s[|s| - 1] == '/' then Some(|s| - 1)
    else
      assert s == s[..|s| - 1] + [s[|s| - 1]];
      var r := LastSlash(s[..|s| - 1]);
      assert r.Some? ==> s[r.value + 1..] == s[..|s| - 1][r.value + 1..] + [s[|s| - 1]];
      r
  }

  predicate HasVariant(models: seq<Entry>, modelId: string, variant: string) {
    match Get(models, modelId)
    case None => false
    case Some(model) => model.variants.Some? && variant in model.variants.value
  }

  function ParseModelSelection(modelId: string, providers: seq<Provider>): Selection {
    match Owner(providers, modelId)
    case Some(provider) => ParseOwned(provider, modelId[|provider.id| + 1..])
    case None =>
      match Find(modelId, "/")
      case None => Selection(modelId, "", None)
      case Some(separator) => Selection(modelId[..separator], modelId[separator + 1..], None)
  }

  function ParseOwned(provider: Provider, rest: string): Selection {
    var separator := LastSlash(rest);
    if Get(provider.models, rest).None? && separator.Some?
       && HasVariant(provider.models, rest[..separator.value], rest[separator.value + 1..])
    then Selection(provider.id, rest[..separator.value], Some(rest[separator.value + 1..]))
    else Selection(provider.id, rest, None)
  }

  // ---------- format_current_model_id ----------

  function SelectVariant(variant: Option<string>, variants: seq<string>): string {
    if variant.Some? && variant.value in variants then variant.value
    else if DEFAULT_VARIANT in variants then DEFAULT_VARIANT
    else if variants == [] then ""
    else variants[0]
  }

  function FormatCurrentModelId(
    providerId: string, modelId: string, variant: Option<string>, variants: seq<string>, offer: Option<bool>): string
  {
    var base := providerId + "/" + modelId;
    if offer != Some(true) || variants == [] then base
    else base + "/" + SelectVariant(variant, variants)
  }

  function FindProvider(providers: seq<Provider>, id: string): Option<Provider> {
    if providers == [] then None
    else if providers[0].id == id then Some(providers[0])
    else FindProvider(providers[1..], id)
  }

  function VariantsForModel(providers: seq<Provider>, providerId: string, modelId: string): seq<string> {
    match FindProvider(providers, providerId)
    case None => []
    case Some(provider) =>
      match Get(provider.models, modelId)
      case None => []
      case Some(model) => if model.variants.Some? then model.variants.value else []
  }

  // ---------- Reading back ----------

  function Rejoin(s: Selection): string {
    s.providerId + "/" + s.modelId + match s.variant case None => "" case Some(v) => "/" + v
  }

  /** Whatever is configured, the pieces of a model id join to it again exactly when it has a slash. */
  lemma RejoinIff(modelId: string, providers: seq<Provider>)
    ensures Rejoin(ParseModelSelection(modelId, providers)) == modelId <==> '/' in modelId
    ensures '/' !in modelId ==> ParseModelSelection(modelId, providers) == Selection(modelId, "", None)
  {
    var owner := Owner(providers, modelId);
    if owner.Some? {
      var n := |owner.value.id|;
      assert modelId[n] == (owner.value.id + "/")[n] == '/';
      assert modelId == modelId[..n + 1] + modelId[n + 1..] && modelId[..n + 1] == owner.value.id + "/";
      OwnedRejoins(owner.value, modelId[n + 1..]);
    } else {
      FindSlash(modelId);
      var found := Find(modelId, "/");
      if found.Some? {
        assert modelId == modelId[..found.value] + "/" + modelId[found.value + 1..];
      } else {
        assert Rejoin(Selection(modelId, "", None))[|modelId|] == '/';
      }
    }
  }

  lemma FindSlash(s: string)
    ensures Find(s, "/") == None <==> '/' !in s
    ensures Find(s, "/").Some? ==> s[Find(s, "/").value] == '/'
    ensures Find(s, "/").Some? ==> forall i :: 0 <= i < Find(s, "/").value ==> s[i] != '/'
  {
    FindIsFirst(s, "/", Find(s, "/"));
    forall i | 0 <= i < |s|
      ensures OccursAt("/", s, i) <==> s[i] == '/'
    {
      assert s[i..i + 1] == [s[i]];
    }
  }

  lemma OwnedRejoins(provider: Provider, rest: string)
    ensures Rejoin(ParseOwned(provider, rest)) == provider.id + "/" + rest
  {
    var separator := LastSlash(rest);
    if separator.Some? {
      assert rest == rest[..separator.value] + "/" + rest[separator.value + 1..];
    }
  }

  lemma LastSlashAfter(base: string, variant: string)
    ensures '/' !in variant <==> LastSlash(base + "/" + variant) == Some(|base|)
  {
    var s := base + "/" + variant;
    assert s[|base|] == '/' && s[|base| + 1..] == variant;
    if '/' !in variant {
      LastSlashIs(s, |base|);
    }
  }

  lemma {:induction false} LastSlashIs(s: string, k: nat)
    requires k < |s| && s[k] == '/' && '/' !in s[k + 1..]
    ensures LastSlash(s) == Some(k)
  {
    if k < |s| - 1 {
      assert s[k + 1..][|s| - k - 2] == s[|s| - 1];
      assert s[k + 1..] == s[..|s| - 1][k + 1..] + [s[|s| - 1]];
      LastSlashIs(s[..|s| - 1], k);
    }
  }

  /** When `provider/model` is read back as that model. */
  lemma BaseReadsBackIff(providerId: string, modelId: string, providers: seq<Provider>)
    ensures
      var value := providerId + "/" + modelId;
      ParseModelSelection(value, providers) == Selection(providerId, modelId, None) <==>
      match Owner(providers, value)
      case None => '/' !in providerId
      case Some(owner) =>
        && owner.id == providerId
        && (Get(owner.models, modelId).Some? || !ReadsAsVariant(owner, modelId))
  {
    var value := providerId + "/" + modelId;
    var owner := Owner(providers, value);
    if owner.Some? {
      ReadsAsVariantIff(owner.value, modelId);
    }
    if owner.None? {
      FindSlash(value);
      assert value[|providerId|] == '/' && forall i :: 0 <= i < |providerId| ==> value[i] == providerId[i];
      assert value[..|providerId|] == providerId && value[|providerId| + 1..] == modelId;
    } else {
      if owner.value.id == providerId {
        assert value[|providerId| + 1..] == modelId;
      }
    }
  }

  /** A model of the id is listed, and the variant is one of its variants. */
  ghost predicate ListsVariant(models: seq<Entry>, modelId: string, variant: string) {
    exists m :: Get(models, modelId) == Some(m) && m.variants.Some? && variant in m.variants.value
  }

  ghost predicate ReadsAsVariant(provider: Provider, modelId: string) {
    exists k: nat :: SplitsAt(provider.models, modelId, k)
  }

  /** Split at its last slash, the text is a listed model and one of its variants. */
  ghost predicate SplitsAt(models: seq<Entry>, text: string, k: nat) {
    && k < |text| && text[k] == '/' && '/' !in text[k + 1..]
    && ListsVariant(models, text[..k], text[k + 1..])
  }

  lemma ReadsAsVariantIff(provider: Provider, modelId: string)
    ensures ReadsAsVariant(provider, modelId) <==>
      var separator := LastSlash(modelId);
      separator.Some? && HasVariant(provider.models, modelId[..separator.value], modelId[separator.value + 1..])
  {
    if k: nat :| SplitsAt(provider.models, modelId, k) {
      LastSlashIs(modelId, k);
    }
    var separator := LastSlash(modelId);
    if separator.Some? && HasVariant(provider.models, modelId[..separator.value], modelId[separator.value + 1..]) {
      assert SplitsAt(provider.models, modelId, separator.value);
    }
  }

  lemma NothingToSelect(variant: Option<string>)
    ensures SelectVariant(variant, []) == ""
  {
  }

  /** When `provider/model/variant` is read back as that variant. */
  lemma VariantReadsBackIff(providerId: string, modelId: string, variant: string, providers: seq<Provider>)
    ensures
      var value := providerId + "/" + modelId + "/" + variant;
      ParseModelSelection(value, providers) == Selection(providerId, modelId, Some(variant)) <==>
      match Owner(providers, value)
      case None => false
      case Some(owner) =>
        && owner.id == providerId && '/' !in variant
        && Get(owner.models, modelId + "/" + variant).None? && ListsVariant(owner.models, modelId, variant)
  {
    hide Owner, Get, HasVariant, Find, LastSlash;
    var value := providerId + "/" + modelId + "/" + variant;
    var owner := Owner(providers, value);
    if owner.Some? && owner.value.id == providerId {
      assert value[|providerId| + 1..] == modelId + "/" + variant;
      OwnedReadsBackIff(owner.value, modelId, variant);
    }
  }

  lemma OwnedReadsBackIff(owner: Provider, modelId: string, variant: string)
    ensures
      ParseOwned(owner, modelId + "/" + variant) == Selection(owner.id, modelId, Some(variant)) <==>
      && '/' !in variant && Get(owner.models, modelId + "/" + variant).None?
      && ListsVariant(owner.models, modelId, variant)
  {
    hide LastSlash, Get;
    var rest := modelId + "/" + variant;
    LastSlashAfter(modelId, variant);
    assert rest[..|modelId|] == modelId && rest[|modelId| + 1..] == variant;
    var separator := LastSlash(rest);
    if separator.Some? {
      assert rest[..separator.value] == modelId ==> separator.value == |modelId|;
    }
  }

  // ---------- Whose id it is ----------

  ghost predicate DistinctProviders(providers: seq<Provider>) {
    forall i, j :: 0 <= i < j < |providers| ==> providers[i].id != providers[j].id
  }

  ghost predicate PrefixFree(providers: seq<Provider>) {
    forall p, q :: p in providers && q in providers && p.id + "/" <= q.id + "/" ==> p == q
  }

  ghost predicate OwnsItsIds(providers: seq<Provider>, p: Provider) {
    forall rest :: Owner(providers, p.id + "/" + rest) == Some(p)
  }

  /** The owner is the first provider whose id and a slash begin the text. */
  lemma {:induction false} OwnerIff(providers: seq<Provider>, text: string, i: nat)
    requires i < |providers| && providers[i].id + "/" <= text
    ensures (forall j :: 0 <= j < i ==> !(providers[j].id + "/" <= text)) ==>
      Owner(providers, text) == Some(providers[i])
    ensures Owner(providers, text).Some?
  {
    if i > 0 && !(providers[0].id + "/" <= text) {
      OwnerIff(providers[1..], text, i - 1);
      assert forall j :: 1 <= j < i ==> providers[j] == providers[1..][j - 1];
    }
  }

  /** The provider of an id is the first that has it. */
  lemma {:induction false} FirstOfId(providers: seq<Provider>, id: string, i: nat)
    requires i < |providers| && providers[i].id == id
    requires forall j :: 0 <= j < i ==> providers[j].id != id
    ensures FindProvider(providers, id) == Some(providers[i])
  {
    if i > 0 {
      assert providers[0].id != id;
      FirstOfId(providers[1..], id, i - 1);
    }
  }

  /** Every provider is found by every id it can be given exactly when no provider's id and a slash
      begin another's. */
  lemma OwnersIff(providers: seq<Provider>)
    ensures (forall p :: p in providers ==> OwnsItsIds(providers, p)) <==> PrefixFree(providers)
  {
    if PrefixFree(providers) {
      forall p, rest | p in providers
        ensures Owner(providers, p.id + "/" + rest) == Some(p)
      {
        OwnerFound(providers, p, rest);
      }
    }
    if forall p :: p in providers ==> OwnsItsIds(providers, p) {
      forall p, q | p in providers && q in providers && p.id + "/" <= q.id + "/"
        ensures p == q
      {
        var more := (q.id + "/")[|p.id| + 1..];
        assert q.id + "/" == p.id + "/" + more;
        assert q.id + "/" + "" == p.id + "/" + more;
        assert OwnsItsIds(providers, p) && OwnsItsIds(providers, q);
      }
    }
  }

  lemma PrefixesCompare(a: string, b: string, s: string)
    requires a <= s && b <= s
    ensures a <= b || b <= a
  {
    assert a == s[..|a|] && b == s[..|b|];
  }

  lemma {:induction false} OwnerFound(providers: seq<Provider>, p: Provider, rest: string)
    requires PrefixFree(providers) && p in providers
    ensures Owner(providers, p.id + "/" + rest) == Some(p)
  {
    var value, first := p.id + "/" + rest, providers[0];
    assert p.id + "/" <= value;
    if first.id + "/" <= value {
      PrefixesCompare(first.id + "/", p.id + "/", value);
    } else {
      OwnerFound(providers[1..], p, rest);
    }
  }
}
