/** What the resolver promises, proved about its specification `CvaSpec`
    (which `Cva.Resolve` is proved to compute). */
module CvaProperties {
  import Clsx
  import opened Cva

  lemma {:induction false} VariantTokensConcat(a: VariantTable, b: VariantTable, resolved: Options)
    ensures VariantTokens(a + b, resolved) == VariantTokens(a, resolved) + VariantTokens(b, resolved)
  {
    if b != [] {
      var n := |b| - 1;
      assert (a + b)[..|a + b| - 1] == a + b[..n];
      assert (a + b)[|a + b| - 1] == b[n];
      VariantTokensConcat(a, b[..n], resolved);
    } else {
      assert a + b == a;
    }
  }

  /** The positions, in the table, of the groups that push a token. */
  function Contributors(table: VariantTable, resolved: Options): seq<nat>
  {
    if table == [] then []
    else
      var n := |table| - 1;
      Contributors(table[..n], resolved) + (if Contributes(table[n], resolved) then [n] else [])
  }

  /** The variant tokens are exactly the tokens of the contributing groups,
      one per group, in the table's declaration order: the k-th token comes
      from the k-th contributing group, positions strictly increase, and a
      group is among them exactly when its effective value is a non-empty
      string that its table maps to a non-empty token. */
  lemma {:induction false} TokensFollowDeclarationOrder(table: VariantTable, resolved: Options)
    ensures |Contributors(table, resolved)| == |VariantTokens(table, resolved)|
    ensures forall k :: 0 <= k < |Contributors(table, resolved)| ==>
      var i := Contributors(table, resolved)[k];
      i < |table| && Contributes(table[i], resolved)
      && VariantTokens(table, resolved)[k] == table[i].values[Lookup(resolved, table[i].name).value]
    ensures forall k, l :: 0 <= k < l < |Contributors(table, resolved)| ==>
      Contributors(table, resolved)[k] < Contributors(table, resolved)[l]
    ensures forall i :: 0 <= i < |table| ==>
      (i in Contributors(table, resolved) <==>
        var v := Lookup(resolved, table[i].name);
        v.Some? && v.value != "" && v.value in table[i].values && table[i].values[v.value] != "")
  {
    if table != [] {
      var n := |table| - 1;
      var init := table[..n];
      TokensFollowDeclarationOrder(init, resolved);
      assert forall i :: 0 <= i < n ==> init[i] == table[i];
      var idx0, ts0 := Contributors(init, resolved), VariantTokens(init, resolved);
      var idx, ts := Contributors(table, resolved), VariantTokens(table, resolved);
      if Contributes(table[n], resolved) {
        assert idx == idx0 + [n] && ts == ts0 + [Token(table[n], resolved)];
      } else {
        assert idx == idx0 && ts == ts0;
      }
      forall k | 0 <= k < |idx|
        ensures idx[k] < |table| && Contributes(table[idx[k]], resolved)
             && ts[k] == table[idx[k]].values[Lookup(resolved, table[idx[k]].name).value]
      {
        if k < |idx0| {
          assert idx[k] == idx0[k] && ts[k] == ts0[k];
        }
      }
      forall k, l | 0 <= k < l < |idx|
        ensures idx[k] < idx[l]
      {
        if l >= |idx0| {
          assert idx0[k] < n;
        }
      }
      forall i | 0 <= i < |table|
        ensures i in idx <==> Contributes(table[i], resolved)
      {
        if i < n {
          assert i in idx0 ==> i in idx;
          assert i in idx ==> i in idx0;
        }
      }
    }
  }

  /** A group whose effective value is absent, `undefined` or empty, is not
      in its table, or maps to an empty token, contributes nothing: the
      output is that of the same configuration without the group. */
  lemma SilentGroupAddsNothing(base: string, config: Option<Config>, options: Option<Options>, i: nat)
    requires i < |TableOf(config)|
    requires var g := TableOf(config)[i]; var v := Lookup(Effective(config, options), g.name);
      v.None? || v.value == "" || v.value !in g.values || g.values[v.value] == ""
    ensures var table := TableOf(config);
      CvaSpec(base, config, options) ==
      CvaSpec(base, Some(ConfigOrEmpty(config).(variants := Some(table[..i] + table[i + 1..]))), options)
  {
    var table := TableOf(config);
    var resolved := Effective(config, options);
    var config' := Some(ConfigOrEmpty(config).(variants := Some(table[..i] + table[i + 1..])));
    assert Effective(config', options) == resolved;
    assert table == table[..i] + [table[i]] + table[i + 1..];
    VariantTokensConcat(table[..i] + [table[i]], table[i + 1..], resolved);
    VariantTokensConcat(table[..i], [table[i]], resolved);
    VariantTokensConcat(table[..i], table[i + 1..], resolved);
    assert [table[i]][..0] == [];
    assert VariantTokens([table[i]], resolved) == [];
  }

  /** The effective value of a group is the caller's entry when the key is
      present in the options (even when it is `undefined`), otherwise the
      default, otherwise nothing. */
  lemma EffectiveValue(config: Option<Config>, options: Option<Options>, name: string)
    ensures Lookup(Effective(config, options), name) ==
      if options.Some? && name in options.value then options.value[name]
      else if config.Some? && config.value.defaultVariants.Some? && name in config.value.defaultVariants.value
      then Some(config.value.defaultVariants.value[name])
      else None
  {
  }

  /** An option key present with the value `undefined` shadows the group's
      default: that group contributes nothing. */
  lemma UndefinedShadowsDefault(base: string, config: Option<Config>, options: Option<Options>, i: nat)
    requires i < |TableOf(config)|
    requires options.Some? && TableOf(config)[i].name in options.value
    requires options.value[TableOf(config)[i].name] == None
    ensures !Contributes(TableOf(config)[i], Effective(config, options))
    ensures var table := TableOf(config);
      CvaSpec(base, config, options) ==
      CvaSpec(base, Some(ConfigOrEmpty(config).(variants := Some(table[..i] + table[i + 1..]))), options)
  {
    EffectiveValue(config, options, TableOf(config)[i].name);
    SilentGroupAddsNothing(base, config, options, i);
  }

  lemma {:induction false} VariantTokensAgree(table: VariantTable, r1: Options, r2: Options)
    requires forall i :: 0 <= i < |table| ==> Lookup(r1, table[i].name) == Lookup(r2, table[i].name)
    ensures VariantTokens(table, r1) == VariantTokens(table, r2)
  {
    if table != [] {
      var n := |table| - 1;
      assert forall i :: 0 <= i < n ==> table[..n][i] == table[i];
      VariantTokensAgree(table[..n], r1, r2);
      assert Lookup(r1, table[n].name) == Lookup(r2, table[n].name);
    }
  }

  /** An option key that names no variant group (and is not `className`)
      changes nothing, whatever its value. */
  lemma UnknownOptionIgnored(base: string, config: Option<Config>, options: Option<Options>, key: string, value: Option<string>)
    requires key != ClassNameKey
    requires forall i :: 0 <= i < |TableOf(config)| ==> TableOf(config)[i].name != key
    ensures CvaSpec(base, config, Some((if options.Some? then options.value else map[])[key := value]))
         == CvaSpec(base, config, options)
  {
    var options' := Some((if options.Some? then options.value else map[])[key := value]);
    forall i | 0 <= i < |TableOf(config)|
      ensures Lookup(Effective(config, options'), TableOf(config)[i].name)
           == Lookup(Effective(config, options), TableOf(config)[i].name)
    {
      EffectiveValue(config, options, TableOf(config)[i].name);
      EffectiveValue(config, options', TableOf(config)[i].name);
    }
    VariantTokensAgree(TableOf(config), Effective(config, options'), Effective(config, options));
  }

  /** A default for a key that names no variant group changes nothing; a
      default is never used as the className. */
  lemma UnknownDefaultIgnored(base: string, variants: Option<VariantTable>, defaults: map<string, string>,
                              options: Option<Options>, key: string, value: string)
    requires variants.Some? ==> forall i :: 0 <= i < |variants.value| ==> variants.value[i].name != key
    ensures CvaSpec(base, Some(Config(variants, Some(defaults[key := value]))), options)
         == CvaSpec(base, Some(Config(variants, Some(defaults))), options)
  {
    var c1 := Some(Config(variants, Some(defaults[key := value])));
    var c2 := Some(Config(variants, Some(defaults)));
    var table := TableOf(c2);
    forall i | 0 <= i < |table|
      ensures Lookup(Effective(c1, options), table[i].name) == Lookup(Effective(c2, options), table[i].name)
    {
      EffectiveValue(c1, options, table[i].name);
      EffectiveValue(c2, options, table[i].name);
    }
    VariantTokensAgree(table, Effective(c1, options), Effective(c2, options));
  }

  /** A non-empty `className` is the last token of the output, after one
      space unless it is the whole output; an absent, `undefined` or empty
      one appends nothing. */
  lemma ClassNameLast(base: string, config: Option<Config>, options: Option<Options>)
    ensures var before := Clsx.Clsx([base] + VariantTokens(TableOf(config), Effective(config, options)));
      CvaSpec(base, config, options) ==
        if options.Some? && ClassNameKey in options.value
           && options.value[ClassNameKey].Some? && options.value[ClassNameKey].value != ""
        then
          var extra := options.value[ClassNameKey].value;
          if before == "" then extra else before + " " + extra
        else before
  {
    var front := [base] + VariantTokens(TableOf(config), Effective(config, options));
    if ClassNameTokens(options) == [] {
      assert Classes(base, config, options) == front;
    } else {
      Clsx.ClsxAppend(front, ClassNameTokens(options)[0]);
    }
  }

  /** Without variants, the output is the base followed by the className,
      whatever the defaults and the other options are. */
  lemma NoVariants(base: string, config: Option<Config>, options: Option<Options>)
    requires config.None? || config.value.variants.None? || config.value.variants == Some([])
    ensures CvaSpec(base, config, options) == Clsx.Clsx([base] + ClassNameTokens(options))
  {
    assert TableOf(config) == [];
    assert Classes(base, config, options) == [base] + ClassNameTokens(options);
  }

  /** An omitted configuration behaves as `{}`, and omitted options as an
      empty option set without className. */
  lemma OmittedArguments(base: string, config: Option<Config>, options: Option<Options>)
    ensures CvaSpec(base, None, options) == CvaSpec(base, Some(Config(None, None)), options)
    ensures CvaSpec(base, config, None) == CvaSpec(base, config, Some(map[]))
    ensures CvaSpec(base, config, None) == Clsx.Clsx([base] + VariantTokens(TableOf(config), Effective(config, None)))
  {
    assert Classes(base, config, None) == [base] + VariantTokens(TableOf(config), Effective(config, None));
  }

  /** Omitted `defaultVariants` behave as an empty set of defaults. */
  lemma OmittedDefaults(base: string, variants: Option<VariantTable>, options: Option<Options>)
    ensures CvaSpec(base, Some(Config(variants, None)), options)
         == CvaSpec(base, Some(Config(variants, Some(map[]))), options)
  {
    assert Effective(Some(Config(variants, None)), options)
        == Effective(Some(Config(variants, Some(map[]))), options);
  }

  /** With no configuration and no options the output is the base itself
      (empty when the base is empty). */
  lemma BaseOnly(base: string)
    ensures CvaSpec(base, None, None) == base
  {
    assert Classes(base, None, None) == [base] + [];
    KeptClasses(base, []);
  }

  /** `className` is spread into the resolved selection like any other
      option, so a variant group that happens to be named `className` takes
      its value from it, and the same class is then also pushed last. */
  lemma ClassNameSelectsGroup(config: Option<Config>, options: Option<Options>, i: nat)
    requires i < |TableOf(config)| && TableOf(config)[i].name == ClassNameKey
    requires options.Some? && ClassNameKey in options.value && options.value[ClassNameKey].Some?
    requires var v := options.value[ClassNameKey].value;
      v != "" && v in TableOf(config)[i].values && TableOf(config)[i].values[v] != ""
    ensures i in Contributors(TableOf(config), Effective(config, options))
    ensures ClassNameTokens(options) == [options.value[ClassNameKey].value]
  {
    EffectiveValue(config, options, ClassNameKey);
    TokensFollowDeclarationOrder(TableOf(config), Effective(config, options));
  }

  /** When no token holds a space, the output is empty exactly when the base,
      every variant token and the className are all absent, and otherwise it
      splits at its spaces into the non-empty base, the variant tokens and
      the className, in that order: an empty base leaves no leading token
      and no leading space. */
  lemma OutputTokens(base: string, config: Option<Config>, options: Option<Options>)
    requires forall t :: t in Classes(base, config, options) ==> ' ' !in t
    ensures var tokens := (if base == "" then [] else [base])
      + VariantTokens(TableOf(config), Effective(config, options)) + ClassNameTokens(options);
      (CvaSpec(base, config, options) == "" <==> tokens == [])
      && (tokens != [] ==> Clsx.Split(CvaSpec(base, config, options)) == tokens)
  {
    var vts := VariantTokens(TableOf(config), Effective(config, options));
    var cns := ClassNameTokens(options);
    ClsxOfPushedTokens(base, vts, cns);
  }

  /** The output for a base followed by non-empty variant and className
      tokens. */
  lemma ClsxOfPushedTokens(base: string, vts: seq<string>, cns: seq<string>)
    requires forall t :: t in vts ==> t != ""
    requires forall t :: t in cns ==> t != ""
    requires forall t :: t in [base] + vts + cns ==> ' ' !in t
    ensures var tokens := (if base == "" then [] else [base]) + vts + cns;
      (Clsx.Clsx([base] + vts + cns) == "" <==> tokens == [])
      && (tokens != [] ==> Clsx.Split(Clsx.Clsx([base] + vts + cns)) == tokens)
  {
    var cls := [base] + vts + cns;
    var rest := vts + cns;
    assert cls == [base] + rest;
    assert forall t :: t in rest ==> t in vts || t in cns;
    KeptClasses(base, rest);
    Clsx.ClsxEmpty(cls);
    var tokens := Clsx.Kept(cls);
    assert tokens == (if base == "" then [] else [base]) + vts + cns;
    if tokens != [] {
      assert tokens[0] in tokens;
      Clsx.ClsxSplit(cls);
    }
  }

  /** clsx keeps the base only when it is non-empty, and every pushed token. */
  lemma KeptClasses(base: string, rest: seq<string>)
    requires forall t :: t in rest ==> t != ""
    ensures Clsx.Kept([base] + rest) == (if base == "" then [] else [base]) + rest
  {
    Clsx.KeptConcat([base], rest);
    assert [base][..0] == [];
    Clsx.KeptAllNonEmpty(rest);
  }
}
