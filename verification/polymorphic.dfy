/** The polymorphic-parent index: for each adapter, a map from the joined
    string "<underscored target class>_<as name>" to the models that own a
    polymorphic association with that target and `as` name. It is built once
    per adapter from `all(adapter)` and kept in the registry until reset. */
module Polymorphic {
  import opened Wrappers
  import opened Text
  import opened AbstractModel

  /** `[a, b].join('_')`: a joined string, not a pair. */
  function Key(target: string, asName: string): string {
    target + "_" + asName
  }

  /** The key an association contributes to, if it has an `as` name. */
  function AssociationKey(a: Association): Option<string> {
    match a.polymorphicAs
    case Some(n) => Some(Key(Underscore(a.klass), n))
    case None => None
  }

  /** The associations of a model, read from its class again; a class that no
      longer resolves has none. */
  function AssociationsOf(env: Env, m: Model): seq<Association> {
    match env.constantize(m.modelName)
    case Some(c) => c.associations
    case None => []
  }

  /** The bucket at `key`, empty when absent. */
  function Bucket(idx: Index, key: string): seq<string> {
    if key in idx then idx[key] else []
  }

  /** `(hash[key] ||= []) << owner`. */
  function Append(idx: Index, key: string, owner: string): Index {
    idx[key := Bucket(idx, key) + [owner]]
  }

  /** One association of `owner` added to the index, if it is polymorphic. */
  function AddAssociation(idx: Index, owner: string, a: Association): Index {
    match AssociationKey(a)
    case Some(k) => Append(idx, k, owner)
    case None => idx
  }

  /** One owning model's polymorphic associations folded into the index, in
      declaration order. */
  function AddAssociations(idx: Index, owner: string, assocs: seq<Association>): Index
    decreases |assocs|
  {
    if |assocs| == 0 then idx
    else AddAssociations(AddAssociation(idx, owner, assocs[0]), owner, assocs[1..])
  }

  /** All models folded into the index, in list order. */
  function AddModels(env: Env, idx: Index, models: seq<Model>): Index
    decreases |models|
  {
    if |models| == 0 then idx
    else AddModels(env, AddAssociations(idx, models[0].modelName, AssociationsOf(env, models[0])), models[1..])
  }

  /** The index built from scratch over `models`. */
  function BuildIndex(env: Env, models: seq<Model>): Index {
    AddModels(env, map[], models)
  }

  // ---------------------------------------------------------------------------
  // Reference definition
  // ---------------------------------------------------------------------------

  /** `owner` once for each of `assocs` that contributes to `key`. */
  function OwnersIn(owner: string, assocs: seq<Association>, key: string): (r: seq<string>)
    ensures forall o :: o in r ==> o == owner
  {
    if |assocs| == 0 then []
    else (if AssociationKey(assocs[0]) == Some(key) then [owner] else []) + OwnersIn(owner, assocs[1..], key)
  }

  /** For every model in order and every association of it in order that
      contributes to `key`, the model's name. */
  function Owners(env: Env, models: seq<Model>, key: string): (r: seq<string>)
    ensures forall o :: o in r ==> exists m :: m in models && m.modelName == o
  {
    if |models| == 0 then []
    else
      var here := OwnersIn(models[0].modelName, AssociationsOf(env, models[0]), key);
      var rest := Owners(env, models[1..], key);
      assert forall m :: m in models[1..] ==> m in models;
      here + rest
  }

  lemma AddAssociationBucket(idx: Index, owner: string, a: Association, key: string)
    ensures var first := if AssociationKey(a) == Some(key) then [owner] else [];
      && Bucket(AddAssociation(idx, owner, a), key) == Bucket(idx, key) + first
      && (key in AddAssociation(idx, owner, a) <==> key in idx || first != [])
  {
  }

  lemma {:induction false} AddAssociationsBucket(idx: Index, owner: string, assocs: seq<Association>, key: string)
    ensures Bucket(AddAssociations(idx, owner, assocs), key) == Bucket(idx, key) + OwnersIn(owner, assocs, key)
    ensures key in AddAssociations(idx, owner, assocs) <==> key in idx || OwnersIn(owner, assocs, key) != []
    decreases |assocs|
  {
    if |assocs| > 0 {
      var idx' := AddAssociation(idx, owner, assocs[0]);
      AddAssociationBucket(idx, owner, assocs[0], key);
      AddAssociationsBucket(idx', owner, assocs[1..], key);
      assert AddAssociations(idx, owner, assocs) == AddAssociations(idx', owner, assocs[1..]);
      var first := if AssociationKey(assocs[0]) == Some(key) then [owner] else [];
      var rest := OwnersIn(owner, assocs[1..], key);
      assert OwnersIn(owner, assocs, key) == first + rest;
      assert Bucket(idx, key) + first + rest == Bucket(idx, key) + (first + rest);
    } else {
      assert OwnersIn(owner, assocs, key) == [];
    }
  }

  lemma {:induction false} AddModelsBucket(env: Env, idx: Index, models: seq<Model>, key: string)
    ensures Bucket(AddModels(env, idx, models), key) == Bucket(idx, key) + Owners(env, models, key)
    ensures key in AddModels(env, idx, models) <==> key in idx || Owners(env, models, key) != []
    decreases |models|
  {
    if |models| > 0 {
      var m := models[0];
      var idx' := AddAssociations(idx, m.modelName, AssociationsOf(env, m));
      assert AddModels(env, idx, models) == AddModels(env, idx', models[1..]);
      assert Owners(env, models, key) ==
        OwnersIn(m.modelName, AssociationsOf(env, m), key) + Owners(env, models[1..], key);
      AddAssociationsBucket(idx, m.modelName, AssociationsOf(env, m), key);
      AddModelsBucket(env, idx', models[1..], key);
    }
  }

  /** The fold and the reference agree: a key is in the built index exactly
      when some association contributes to it, and its bucket lists the
      owning models in model order and association order, once per
      contributing association, without deduplication. */
  lemma BuildIndexIsOwners(env: Env, models: seq<Model>, key: string)
    ensures key in BuildIndex(env, models) <==> Owners(env, models, key) != []
    ensures Bucket(BuildIndex(env, models), key) == Owners(env, models, key)
  {
    AddModelsBucket(env, map[], models, key);
  }

  // ---------------------------------------------------------------------------
  // Lookup and the cache
  // ---------------------------------------------------------------------------

  /** The lookup of `polymorphic_parents`: the bucket of
      "<underscored model name>_<name>", or nil when there is none. */
  function Lookup(idx: Index, modelName: string, name: string): Option<seq<string>> {
    var k := Key(Underscore(modelName), name);
    if k in idx then Some(idx[k]) else None
  }

  /** `polymorphic_parents(adapter, model_name, name)`: build the adapter's
      index on first use (which also fills the `all` cache), then look up. */
  function PolymorphicParents(env: Env, reg: Registry, adapter: Adapter, modelName: string, name: string)
    : (r: Cached<Option<seq<string>>>)
    ensures adapter in r.registry.polymorphicParents
    ensures adapter in reg.polymorphicParents ==> r.registry == reg
    ensures forall a :: a in reg.polymorphicParents ==>
              a in r.registry.polymorphicParents && r.registry.polymorphicParents[a] == reg.polymorphicParents[a]
    ensures r.value == Lookup(r.registry.polymorphicParents[adapter], modelName, name)
    ensures adapter !in reg.polymorphicParents ==>
              var m := All(env, reg, Some(adapter));
              r.registry == m.registry.(polymorphicParents := m.registry.polymorphicParents[adapter := BuildIndex(env, m.value)])
  {
    if adapter in reg.polymorphicParents then
      Cached(Lookup(reg.polymorphicParents[adapter], modelName, name), reg)
    else
      var models := All(env, reg, Some(adapter));
      var idx := BuildIndex(env, models.value);
      var reg' := models.registry.(polymorphicParents := models.registry.polymorphicParents[adapter := idx]);
      Cached(Lookup(idx, modelName, name), reg')
  }

  /** `reset_polymorphic_parents`: forget every index, keep the model cache. */
  function ResetPolymorphicParents(reg: Registry): (r: Registry)
    ensures r.polymorphicParents == map[] && r.all == reg.all
  {
    reg.(polymorphicParents := map[])
  }

  /** A first query for an adapter answers from the models of that adapter:
      nil when no association contributes to the key, and otherwise the
      owners in `all(adapter)` order, each a model of that adapter. */
  lemma FirstQueryAnswersFromModels(env: Env, reg: Registry, adapter: Adapter, modelName: string, name: string)
    requires adapter !in reg.polymorphicParents
    ensures var models := All(env, reg, Some(adapter)).value;
      var owners := Owners(env, models, Key(Underscore(modelName), name));
      && PolymorphicParents(env, reg, adapter, modelName, name).value ==
           (if owners == [] then None else Some(owners))
      && forall o :: o in owners ==> exists m :: m in models && m.modelName == o && m.adapter == adapter
  {
    var models := All(env, reg, Some(adapter)).value;
    BuildIndexIsOwners(env, models, Key(Underscore(modelName), name));
  }

  /** The index is built once per adapter: later queries, whatever the
      configuration has become, read the stored index and change nothing. */
  lemma IndexBuiltOnce(env: Env, env': Env, reg: Registry, adapter: Adapter,
                       modelName: string, name: string, modelName': string, name': string)
    ensures var r := PolymorphicParents(env, reg, adapter, modelName, name);
      var r' := PolymorphicParents(env', r.registry, adapter, modelName', name');
      && r'.registry == r.registry
      && r'.value == Lookup(r.registry.polymorphicParents[adapter], modelName', name')
      && (modelName' == modelName && name' == name ==> r'.value == r.value)
  {
  }

  /** Because keys are joined strings, different (target, as) pairs can share
      a bucket: a target "Blog" with `as` name "post_comments" and a target
      "BlogPost" with `as` name "comments" both look up
      "blog_post_comments". In general a one-word target whose `as` name
      starts with the next word's underscore collides with the two-word
      target. */
  lemma KeysCollide(idx: Index, c: char, a: string, d: char, b: string, asName: string)
    requires IsUpper(c) && IsUpper(d) && |a| > 0 && IsLowerWord(a) && IsLowerWord(b)
    ensures Lookup(idx, [c] + a, [Downcase(d)] + b + "_" + asName) == Lookup(idx, [c] + a + [d] + b, asName)
  {
    UnderscoreCapitalised(c, a);
    UnderscoreCamelPair(c, a, d, b);
    assert Key([Downcase(c)] + a, [Downcase(d)] + b + "_" + asName)
        == Key([Downcase(c)] + a + "_" + [Downcase(d)] + b, asName);
  }
}
