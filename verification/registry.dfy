/** The model registry: how a configured model name becomes a model with an
    adapter, the process-wide `all` cache, and the two URL/parameter names of
    a model. The class variables of the source become an explicit `Registry`
    value that each operation takes and returns. */
module AbstractModel {
  import opened Wrappers
  import opened Text

  datatype Adapter = ActiveRecord | Mongoid

  /** The two facts about an association that the polymorphic index reads:
      its target class and, for the owning side of a polymorphic association,
      its `as` name. */
  datatype Association = Association(klass: string, polymorphicAs: Option<string>)

  /** What a class reveals: its own name, the names of its ancestors, whether
      it is an abstract class, and its associations. */
  datatype ClassInfo = ClassInfo(name: string, ancestors: seq<string>, isAbstract: bool, associations: seq<Association>)

  /** The application the registry looks at: the configured model names, and
      `constantize`, which finds the class of a name or fails with
      LoadError/NameError (`None`). */
  datatype Env = Env(modelsPool: seq<string>, constantize: string -> Option<ClassInfo>)

  /** A model: the name of its class and the adapter chosen for it. */
  datatype Model = Model(modelName: string, adapter: Adapter)

  /** The adapter `initialize` chooses from the class's ancestors. */
  function AdapterFor(c: ClassInfo): Option<Adapter> {
    if "ActiveRecord::Base" in c.ancestors && !c.isAbstract then Some(ActiveRecord)
    else if "Mongoid::Document" in c.ancestors then Some(Mongoid)
    else None
  }

  /** `AbstractModel.new`: constantize the name, build the model under the
      class's own name, and keep it only if that name resolves again and an
      adapter was chosen; a failed lookup is nil, not an error. */
  function New(env: Env, name: string): (m: Option<Model>)
    ensures m.Some? ==> env.constantize(name).Some?
    ensures m.Some? ==> m.value.modelName == env.constantize(name).value.name
    ensures m.Some? ==> env.constantize(m.value.modelName).Some?
    ensures m.Some? ==> AdapterFor(env.constantize(m.value.modelName).value) == Some(m.value.adapter)
  {
    match env.constantize(name)
    case None => None
    case Some(c) =>
      match env.constantize(c.name)
      case None => None
      case Some(k) =>
        match AdapterFor(k)
        case None => None
        case Some(a) => Some(Model(c.name, a))
  }

  /** The adapter choice: a concrete ActiveRecord descendant is ActiveRecord
      even when it also includes Mongoid::Document; an abstract ActiveRecord
      class falls through to the Mongoid test; a class that is neither
      yields no model. */
  lemma {:induction false} AdapterChoice(env: Env, name: string, c: ClassInfo)
    requires env.constantize(name) == Some(c) && env.constantize(c.name) == Some(c)
    ensures "ActiveRecord::Base" in c.ancestors && !c.isAbstract ==>
              New(env, name) == Some(Model(c.name, ActiveRecord))
    ensures !("ActiveRecord::Base" in c.ancestors && !c.isAbstract) && "Mongoid::Document" in c.ancestors ==>
              New(env, name) == Some(Model(c.name, Mongoid))
    ensures !("ActiveRecord::Base" in c.ancestors && !c.isAbstract) && "Mongoid::Document" !in c.ancestors ==>
              New(env, name).None?
  {
  }

  // ---------------------------------------------------------------------------
  // The `all` cache
  // ---------------------------------------------------------------------------

  /** `xs` is `ys` with some elements left out and the rest in order. */
  predicate IsSubsequence<T(==)>(xs: seq<T>, ys: seq<T>)
    decreases |ys|
  {
    if |xs| == 0 then true
    else if |ys| == 0 then false
    else if xs[0] == ys[0] then IsSubsequence(xs[1..], ys[1..])
    else IsSubsequence(xs, ys[1..])
  }

  /** `models_pool.collect { |m| new(m) }.compact`: one model per name that
      resolves, in pool order. */
  function ResolvePool(env: Env, names: seq<string>): (ms: seq<Model>)
    ensures |ms| <= |names|
    ensures forall m :: m in ms <==> exists n :: n in names && New(env, n) == Some(m)
  {
    if |names| == 0 then []
    else
      var head := match New(env, names[0]) case Some(m) => [m] case None => [];
      var tail := ResolvePool(env, names[1..]);
      assert forall n :: n in names <==> n == names[0] || n in names[1..];
      head + tail
  }

  /** One name gives its model, or nothing when it does not resolve. */
  lemma ResolvePoolOne(env: Env, n: string)
    ensures ResolvePool(env, [n]) == (match New(env, n) case Some(m) => [m] case None => [])
  {
    assert [n][1..] == [];
  }

  /** Resolving a pool is resolving its parts in order and concatenating:
      `compact` keeps the surviving models in pool order and with their
      multiplicity. */
  lemma {:induction false} ResolvePoolAppend(env: Env, xs: seq<string>, ys: seq<string>)
    ensures ResolvePool(env, xs + ys) == ResolvePool(env, xs) + ResolvePool(env, ys)
    decreases |xs|
  {
    if |xs| > 0 {
      var head := match New(env, xs[0]) case Some(m) => [m] case None => [];
      assert (xs + ys)[0] == xs[0];
      assert (xs + ys)[1..] == xs[1..] + ys;
      assert ResolvePool(env, xs + ys) == head + ResolvePool(env, xs[1..] + ys);
      assert ResolvePool(env, xs) == head + ResolvePool(env, xs[1..]);
      ResolvePoolAppend(env, xs[1..], ys);
      assert head + (ResolvePool(env, xs[1..]) + ResolvePool(env, ys))
          == head + ResolvePool(env, xs[1..]) + ResolvePool(env, ys);
    } else {
      assert xs + ys == ys;
    }
  }

  /** `compact` drops only the names that fail to resolve and does not
      deduplicate: when every name resolves, the list has one model per
      name, a name listed twice giving two entries. */
  lemma {:induction false} ResolvePoolKeepsEveryName(env: Env, names: seq<string>)
    requires forall i :: 0 <= i < |names| ==> New(env, names[i]).Some?
    ensures |ResolvePool(env, names)| == |names|
    ensures forall i :: 0 <= i < |names| ==> ResolvePool(env, names)[i] == New(env, names[i]).value
  {
    if |names| > 0 {
      ResolvePoolKeepsEveryName(env, names[1..]);
    }
  }

  /** `select { |m| m.adapter == adapter }`. */
  function SelectAdapter(ms: seq<Model>, a: Adapter): (r: seq<Model>)
    ensures IsSubsequence(r, ms)
    ensures forall m :: m in r <==> m in ms && m.adapter == a
  {
    if |ms| == 0 then []
    else if ms[0].adapter == a then [ms[0]] + SelectAdapter(ms[1..], a)
    else
      var r := SelectAdapter(ms[1..], a);
      assert |r| > 0 ==> r[0] != ms[0];
      r
  }

  /** The ActiveRecord and Mongoid views of the cache share it out: every
      cached model is in exactly one of them. */
  lemma {:induction false} AdapterViewsPartition(ms: seq<Model>)
    ensures |SelectAdapter(ms, ActiveRecord)| + |SelectAdapter(ms, Mongoid)| == |ms|
  {
    if |ms| > 0 {
      AdapterViewsPartition(ms[1..]);
    }
  }

  /** The polymorphic-parent index of one adapter: bucket key to owners. */
  type Index = map<string, seq<string>>

  /** The class variables: the cached model list (nil until first use) and
      the polymorphic-parent index of each adapter built so far. */
  datatype Registry = Registry(all: Option<seq<Model>>, polymorphicParents: map<Adapter, Index>)

  /** The state when the process starts. */
  const Initial: Registry := Registry(None, map[])

  /** A result together with the registry after computing it. */
  datatype Cached<T> = Cached(value: T, registry: Registry)

  /** `AbstractModel.all(adapter)`: fill the cache if it is empty, then return
      it whole or only the models of the given adapter, in cache order. */
  function All(env: Env, reg: Registry, adapter: Option<Adapter>): (r: Cached<seq<Model>>)
    ensures r.registry.all.Some?
    ensures r.registry.polymorphicParents == reg.polymorphicParents
    ensures reg.all.Some? ==> r.registry == reg
    ensures reg.all.None? ==> r.registry.all.value == ResolvePool(env, env.modelsPool)
    ensures IsSubsequence(r.value, r.registry.all.value)
    ensures forall m :: m in r.value <==>
              m in r.registry.all.value && (adapter.None? || m.adapter == adapter.value)
    ensures adapter.None? ==> r.value == r.registry.all.value
    ensures adapter.Some? ==> r.value == SelectAdapter(r.registry.all.value, adapter.value)
  {
    var cache := if reg.all.Some? then reg.all.value else ResolvePool(env, env.modelsPool);
    var reg' := reg.(all := Some(cache));
    match adapter
    case None =>
      assert IsSubsequence(cache, cache) by { SubsequenceReflexive(cache); }
      Cached(cache, reg')
    case Some(a) => Cached(SelectAdapter(cache, a), reg')
  }

  lemma SubsequenceReflexive<T>(xs: seq<T>)
    ensures IsSubsequence(xs, xs)
  {
  }

  /** `AbstractModel.reset`: forget the cached list, nothing else. */
  function Reset(reg: Registry): (r: Registry)
    ensures r.all.None? && r.polymorphicParents == reg.polymorphicParents
  {
    reg.(all := None)
  }

  /** The cache is computed once: after the first call, `all` neither
      recomputes nor changes the registry, even if the configured models or
      the classes behind them have changed since. */
  lemma AllIsMemoised(env: Env, env': Env, reg: Registry, a: Option<Adapter>, a': Option<Adapter>)
    ensures var r := All(env, reg, a);
      && All(env', r.registry, a').registry == r.registry
      && All(env', r.registry, None).value == All(env, reg, None).value
  {
  }

  /** The two adapter views of `all` share out the unfiltered list. */
  lemma AllViewsPartition(env: Env, reg: Registry)
    ensures |All(env, reg, Some(ActiveRecord)).value| + |All(env, reg, Some(Mongoid)).value|
              == |All(env, reg, None).value|
  {
    AdapterViewsPartition(All(env, reg, None).value);
  }

  /** After `reset` the next `all` sees the current configuration. */
  lemma ResetRecomputes(env: Env, reg: Registry)
    ensures All(env, Reset(reg), None).value == ResolvePool(env, env.modelsPool)
  {
  }

  // ---------------------------------------------------------------------------
  // Names
  // ---------------------------------------------------------------------------

  /** The `::`-separated parts of a class name, each underscored. */
  function Segments(modelName: string): (segs: seq<string>) {
    var parts := RubySplit(modelName, "::");
    seq(|parts|, i requires 0 <= i < |parts| => Underscore(parts[i]))
  }

  /** `to_param`: the underscored parts joined with '~'. */
  function ToParam(modelName: string): string {
    Join(Segments(modelName), "~")
  }

  /** `param_key`: the underscored parts joined with '_'. */
  function ParamKey(modelName: string): string {
    Join(Segments(modelName), "_")
  }

  /** Every occurrence of `c` in `s` replaced by `d`. */
  function Replace(s: string, c: char, d: char): (r: string)
    ensures |r| == |s|
    ensures forall i :: 0 <= i < |s| ==> r[i] == (if s[i] == c then d else s[i])
  {
    seq(|s|, i requires 0 <= i < |s| => if s[i] == c then d else s[i])
  }

  /** Every character of a field of a split is a character of the string. */
  lemma {:induction false} SplitFieldsWithin(s: string, sep: string, c: char)
    requires |sep| > 0 && c !in s
    ensures forall k :: 0 <= k < |SplitOn(s, sep)| ==> c !in SplitOn(s, sep)[k]
    decreases |s|
  {
    match FindFrom(s, sep, 0)
    case None =>
    case Some(i) =>
      var rest := s[i + |sep|..];
      assert forall x :: x in rest ==> x in s;
      assert forall x :: x in s[..i] ==> x in s;
      SplitFieldsWithin(rest, sep, c);
      assert SplitOn(s, sep) == [s[..i]] + SplitOn(rest, sep);
  }

  /** A name without '~' has segments without '~'. */
  lemma SegmentsWithoutTilde(modelName: string)
    requires '~' !in modelName
    ensures forall k :: 0 <= k < |Segments(modelName)| ==> '~' !in Segments(modelName)[k]
  {
    SplitFieldsWithin(modelName, "::", '~');
    var parts := RubySplit(modelName, "::");
    forall k | 0 <= k < |parts|
      ensures '~' !in Underscore(parts[k])
    {
      UnderscoreKeepsAbsent('/', parts[k], '~');
    }
  }

  /** Replacing one separator character by another in a join of fields that
      do not contain it gives the join with the other separator. */
  lemma {:induction false} ReplaceInJoin(parts: seq<string>, c: char, d: char)
    requires forall k :: 0 <= k < |parts| ==> c !in parts[k]
    ensures Replace(Join(parts, [c]), c, d) == Join(parts, [d])
    decreases |parts|
  {
    if |parts| == 1 {
      assert Replace(parts[0], c, d) == parts[0];
    } else if |parts| > 1 {
      ReplaceInJoin(parts[1..], c, d);
      var p, rest := parts[0], Join(parts[1..], [c]);
      assert Join(parts, [c]) == p + [c] + rest;
      assert Replace(p, c, d) == p;
      assert Replace(p + [c] + rest, c, d) == Replace(p, c, d) + [d] + Replace(rest, c, d);
    }
  }

  /** `to_param` can be decoded: splitting it on '~' gives back the
      underscored segments of the class name. */
  lemma ToParamDecodes(modelName: string)
    requires '~' !in modelName && |Segments(modelName)| > 0
    ensures SplitOn(ToParam(modelName), "~") == Segments(modelName)
  {
    SegmentsWithoutTilde(modelName);
    SplitJoin(Segments(modelName), "~");
  }

  /** `param_key` and `to_param` have the same segments and differ only in
      the separator: `param_key` is `to_param` with '~' turned into '_'. */
  lemma ParamKeyIsToParamWithUnderscores(modelName: string)
    requires '~' !in modelName
    ensures ParamKey(modelName) == Replace(ToParam(modelName), '~', '_')
  {
    SegmentsWithoutTilde(modelName);
    ReplaceInJoin(Segments(modelName), '~', '_');
  }

  /** A name with no ':' is one segment: `to_param` and `param_key` are both
      its underscored form. */
  lemma NamesOfOne(x: string)
    requires |x| > 0 && ':' !in x
    ensures ToParam(x) == ParamKey(x) == Underscore(x)
  {
    SplitOnWithoutSeparator(x, "::");
    assert Segments(x) == [Underscore(x)];
  }

  /** Two non-empty names with no ':' joined by "::" are two segments. */
  lemma NamesOfTwo(x: string, y: string)
    requires |y| > 0 && ':' !in x && ':' !in y
    ensures ToParam(x + "::" + y) == Underscore(x) + "~" + Underscore(y)
    ensures ParamKey(x + "::" + y) == Underscore(x) + "_" + Underscore(y)
  {
    SplitOnOnce(x, "::", y);
    assert Segments(x + "::" + y) == [Underscore(x), Underscore(y)];
    JoinPair(Underscore(x), Underscore(y), "~");
    JoinPair(Underscore(x), Underscore(y), "_");
  }

  /** A capitalised word contains no ':'. */
  lemma NoColonInCapitalised(c: char, a: string)
    requires IsUpper(c) && IsLowerWord(a)
    ensures ':' !in [c] + a
  {
    forall k | 0 <= k < |a| ensures a[k] != ':' {
      assert IsLower(a[k]);
    }
  }

  /** Whenever the underscored form of two names run together is their
      underscored forms joined by '_', the namespaced and the run-together
      class names share a `param_key`. */
  lemma NamespaceCollision(x: string, y: string)
    requires |y| > 0 && ':' !in x && ':' !in y
    requires Underscore(x + y) == Underscore(x) + "_" + Underscore(y)
    ensures ParamKey(x + "::" + y) == ParamKey(x + y) == Underscore(x) + "_" + Underscore(y)
    ensures ToParam(x + "::" + y) == Underscore(x) + "~" + Underscore(y)
    ensures ToParam(x + y) == ParamKey(x + y)
  {
    NamesOfTwo(x, y);
    assert ':' !in x + y;
    NamesOfOne(x + y);
  }

  /** `param_key` loses the namespace boundary that `to_param` keeps: a
      namespaced class such as "Foo::Bar" and the camel-cased "FooBar" share
      the `param_key` "foo_bar", while their `to_param` values "foo~bar" and
      "foo_bar" differ. */
  lemma ParamKeyCollision(c: char, a: string, d: char, b: string)
    requires IsUpper(c) && IsUpper(d) && |a| > 0 && IsLowerWord(a) && IsLowerWord(b)
    ensures var namespaced, camel := [c] + a + "::" + [d] + b, [c] + a + [d] + b;
      var first, second := [Downcase(c)] + a, [Downcase(d)] + b;
      && ParamKey(namespaced) == ParamKey(camel) == first + "_" + second
      && ToParam(namespaced) == first + "~" + second
      && ToParam(camel) == ParamKey(camel)
  {
    var x, y := [c] + a, [d] + b;
    NoColonInCapitalised(c, a);
    NoColonInCapitalised(d, b);
    UnderscoreCapitalised(c, a);
    UnderscoreCapitalised(d, b);
    UnderscoreCamelPair(c, a, d, b);
    Regroup([Downcase(c)], a, "_", [Downcase(d)] + b);
    assert x + y == [c] + a + [d] + b;
    NamespaceCollision(x, y);
    assert x + "::" + y == [c] + a + "::" + [d] + b;
  }
}
