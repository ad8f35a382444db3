/** The style-variant resolver `cva(base, config)(options)`: a base class
    token, a table of variant groups (group name to value to class token) and
    default selections, resolved against the caller's options into one class
    string. The two stages of the curried call are modelled as one call that
    takes the configuration and the options together. */
module Cva {
  import Clsx

  datatype Option<+T> = None | Some(value: T)

  /** One variant group: its name and its table from variant value to class token. */
  datatype Group = Group(name: string, values: map<string, string>)

  /** The `variants` record, in declaration order (the order `for...in` visits it). */
  type VariantTable = seq<Group>

  /** The options record, `className` included. A key mapped to None is present
      with the value `undefined`, which is not the same as an absent key. */
  type Options = map<string, Option<string>>

  /** The configuration object; either field may be left out. */
  datatype Config = Config(variants: Option<VariantTable>, defaultVariants: Option<map<string, string>>)

  /** The option whose non-empty value is pushed last as an extra class. */
  const ClassNameKey: string := "className"

  /** `config` as the resolver sees it: an omitted configuration is `{}`. */
  function ConfigOrEmpty(config: Option<Config>): Config
  {
    if config.Some? then config.value else Config(None, None)
  }

  /** The variant groups that are walked; none when `variants` is left out. */
  function TableOf(config: Option<Config>): VariantTable
  {
    var c := ConfigOrEmpty(config);
    if c.variants.Some? then c.variants.value else []
  }

  /** `{ ...a, ...b }` with `a` the defaults: every key of either, the
      options' entry winning, `undefined` entries included. */
  function Merge(defaults: map<string, string>, options: Options): (r: Options)
    ensures r.Keys == defaults.Keys + options.Keys
    ensures forall k :: k in options ==> r[k] == options[k]
    ensures forall k :: k in defaults && k !in options ==> r[k] == Some(defaults[k])
  {
    (map k | k in defaults :: Some(defaults[k])) + options
  }

  /** The `resolved` selection: `{ ...(defaultVariants || {}), ...(options || {}) }`. */
  function Effective(config: Option<Config>, options: Option<Options>): Options
  {
    var c := ConfigOrEmpty(config);
    Merge(if c.defaultVariants.Some? then c.defaultVariants.value else map[],
          if options.Some? then options.value else map[])
  }

  /** `resolved[name]`: None both for an absent key and for `undefined`. */
  function Lookup(resolved: Options, name: string): Option<string>
  {
    if name in resolved then resolved[name] else None
  }

  /** The guard of the loop body: the effective value is a non-empty string
      and the group's table maps it to a non-empty token. */
  predicate Contributes(g: Group, resolved: Options)
  {
    var v := Lookup(resolved, g.name);
    v.Some? && v.value != "" && v.value in g.values && g.values[v.value] != ""
  }

  /** The token a contributing group pushes. */
  function Token(g: Group, resolved: Options): string
    requires Contributes(g, resolved)
  {
    g.values[Lookup(resolved, g.name).value]
  }

  /** The tokens pushed by the walk over the groups, in table order. */
  function VariantTokens(table: VariantTable, resolved: Options): (r: seq<string>)
    ensures |r| <= |table|
    ensures forall t :: t in r ==> t != ""
  {
    if table == [] then []
    else
      var n := |table| - 1;
      var init := VariantTokens(table[..n], resolved);
      if Contributes(table[n], resolved) then
        assert forall t :: t in init + [Token(table[n], resolved)] ==> t in init || t == Token(table[n], resolved);
        init + [Token(table[n], resolved)]
      else init
  }

  /** The className token pushed last: present only when the caller's
      options hold a non-empty `className` (defaults are not consulted). */
  function ClassNameTokens(options: Option<Options>): (r: seq<string>)
  {
    if options.Some? && ClassNameKey in options.value
       && options.value[ClassNameKey].Some? && options.value[ClassNameKey].value != ""
    then [options.value[ClassNameKey].value]
    else []
  }

  /** The `classes` array handed to clsx. */
  function Classes(base: string, config: Option<Config>, options: Option<Options>): seq<string>
  {
    [base] + VariantTokens(TableOf(config), Effective(config, options)) + ClassNameTokens(options)
  }

  /** The class string `cva(base, config)(options)` returns. */
  function CvaSpec(base: string, config: Option<Config>, options: Option<Options>): string
  {
    Clsx.Clsx(Classes(base, config, options))
  }

  /** The resolver as the source runs it: seed the array with the base,
      push one token per contributing group while walking the table, push
      the className, and hand the array to clsx. */
  method Resolve(base: string, config: Option<Config>, options: Option<Options>) returns (out: string)
    ensures out == CvaSpec(base, config, options)
  {
    var c := if config.Some? then config.value else Config(None, None);
    var classes := [base];
    var defaults := if c.defaultVariants.Some? then c.defaultVariants.value else map[];
    var opts := if options.Some? then options.value else map[];
    var resolved := Merge(defaults, opts);
    if c.variants.Some? {
      var variants := c.variants.value;
      var i := 0;
      while i < |variants|
        invariant 0 <= i <= |variants|
        invariant classes == [base] + VariantTokens(variants[..i], resolved)
      {
        var Group(name, values) := variants[i];
        var value := if name in resolved then resolved[name] else None;
        if value.Some? && value.value != "" && value.value in values && values[value.value] != "" {
          classes := classes + [values[value.value]];
        }
        assert variants[..i + 1][..i] == variants[..i];
        i := i + 1;
      }
      assert variants[..i] == variants;
    }
    assert resolved == Effective(config, options);
    assert classes == [base] + VariantTokens(TableOf(config), resolved);
    if options.Some? && ClassNameKey in options.value {
      var extra := options.value[ClassNameKey];
      if extra.Some? && extra.value != "" {
        classes := classes + [extra.value];
      }
    }
    assert classes == Classes(base, config, options);
    out := Clsx.Clsx(classes);
  }
}
