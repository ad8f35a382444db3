# cva: a verified model of the style-variant resolver

The documentation site of TinyPubSub composes CSS class strings with a small
"class-variance-authority"-style helper, `cva(base, config)`. The helper returns a
resolver, and calling the resolver with `options` gives a class string. The resolver:

1. seeds an array `classes` with the base class;
2. builds the selection `resolved` by spreading the caller's options over the defaults;
3. walks the variant groups in declaration order and pushes a group's class when the
   effective value is a non-empty string that the group's table maps to a non-empty class;
4. pushes the caller's `className` if it is non-empty;
5. hands the array to `clsx`, which drops empty strings and joins the rest with one space.

The model has four modules:

- `Clsx` (`clsx.dfy`) states the join contract of the `clsx` package: `Kept`, `Join`
  and `Clsx`. It also defines `Split`, which cuts a string at every space, and proves
  `Split` to be the inverse of the join on tokens without spaces.
- `Cva` (`cva.dfy`) holds the data model and the pure specification `CvaSpec`. It also
  holds the method `Resolve`. `Resolve` builds the `classes` sequence step by step in a
  loop over the groups, as the source does, and is proved equal to `CvaSpec`.
- `CvaProperties` (`cva_properties.dfy`) proves what the resolver promises: ordering,
  fallback, shadowing, ignored keys, the position of `className`, and the shape of the
  output.
- `CvaExamples` (`cva_examples.dfy`) works through a button configuration.

Representation:

- The variant table is a sequence of `Group(name, values)` entries, where `values` maps a
  variant value to a class, so that declaration order is kept.
- The options are a single `map<string, Option<string>>` that also holds the
  `className` key. `None` is a key that is present with the value `undefined`, which is
  not the same as an absent key.
- An omitted `config` or `options` argument is `None`.
- The curried call `cva(base, config)(options)` becomes one call,
  `Resolve(base, config, options)`.

Behaviour worth noting:

- The output is not de-duplicated.
- Whitespace inside a token is kept: nothing is trimmed or collapsed.
- An empty base adds nothing to the output.
- `className` is also spread into the resolved selection, so a variant group named
  `className` takes its value from it (`ClassNameSelectsGroup`). Defaults are never
  appended as the `className`.

## Model

| member | source | states |
|---|---|---|
| `Cva.Resolve` | apps/doc/src/components/ui/cva.ts:8-28 | the loop that seeds the array with the base, pushes one class per contributing group and then the className, and returns `clsx` of the array, computes exactly `CvaSpec` |
| `Cva.Merge` | apps/doc/src/components/ui/cva.ts:12 | the spread of options over defaults has the keys of both; an option's entry, `undefined` included, wins; otherwise the default is used |
| `Cva.VariantTokens` | apps/doc/src/components/ui/cva.ts:14-21 | the walk pushes at most one class per group, and never an empty class |
| `CvaProperties.TokensFollowDeclarationOrder` | apps/doc/src/components/ui/cva.ts:15-19 | the k-th variant class comes from the k-th contributing group; contributing positions strictly increase, so the order is declaration order with at most one class per group; a group contributes if and only if its effective value is a non-empty string that its table maps to a non-empty class |
| `CvaProperties.SilentGroupAddsNothing` | apps/doc/src/components/ui/cva.ts:16-19 | a group whose value is absent, `undefined` or empty, is missing from its table, or maps to an empty class leaves the output equal to that of the configuration without the group |
| `CvaProperties.EffectiveValue` | apps/doc/src/components/ui/cva.ts:12 | a group's effective value is the option's entry when the key is present (even as `undefined`), else the default, else nothing |
| `CvaProperties.UndefinedShadowsDefault` | apps/doc/src/components/ui/cva.ts:12-17 | an option set to `undefined` hides the group's default, and the group contributes nothing |
| `CvaProperties.UnknownOptionIgnored` | apps/doc/src/components/ui/cva.ts:12-25 | adding or changing an option whose key names no group and is not `className` leaves the output unchanged |
| `CvaProperties.UnknownDefaultIgnored` | apps/doc/src/components/ui/cva.ts:12-25 | adding or changing a default whose key names no group leaves the output unchanged; a `className` default is never appended |
| `CvaProperties.ClassNameSelectsGroup` | apps/doc/src/components/ui/cva.ts:12-24 | `className` also selects the value of a group named `className`, and is still pushed last |
| `CvaProperties.ClassNameLast` | apps/doc/src/components/ui/cva.ts:23-26 | a non-empty className is appended last, after one space unless nothing precedes it; an absent, `undefined` or empty one appends nothing |
| `CvaProperties.NoVariants` | apps/doc/src/components/ui/cva.ts:14-26 | with no variant table the output is `clsx` of the base and the className, whatever the defaults and other options are |
| `CvaProperties.OmittedArguments` | apps/doc/src/components/ui/cva.ts:8-12 | an omitted config behaves as `{}`; omitted options behave as an empty option set with no className |
| `CvaProperties.OmittedDefaults` | apps/doc/src/components/ui/cva.ts:12 | omitted `defaultVariants` behave as an empty default set |
| `CvaProperties.BaseOnly` | apps/doc/src/components/ui/cva.ts:11 | with neither config nor options the output is the base itself |
| `CvaProperties.OutputTokens` | apps/doc/src/components/ui/cva.ts:11-26 | when no class holds a space, the output is empty exactly when nothing is kept; otherwise splitting it at spaces gives the non-empty base, then the variant classes, then the className, so an empty base leaves no leading token or space |
| `Clsx.Kept` | apps/doc/src/components/ui/cva.ts:26 | `clsx` keeps only non-empty tokens, taken from its input |
| `Clsx.ClsxEmpty` | apps/doc/src/components/ui/cva.ts:26 | the joined string is empty if and only if every token is empty |
| `Clsx.ClsxAppend` | apps/doc/src/components/ui/cva.ts:26 | appending a token to the array appends it after exactly one space, or as the whole output when the output so far is empty, or not at all when the token is empty |
| `Clsx.SplitJoin` | apps/doc/src/components/ui/cva.ts:26 | splitting the join of non-empty, space-free tokens at spaces gives the tokens back |
| `Clsx.ClsxSplit` | apps/doc/src/components/ui/cva.ts:26 | when tokens hold no spaces, the output splits back into exactly the non-empty tokens in order: one space between neighbours, none at either end |
| `CvaExamples.ButtonWithToneAndClassName` | apps/doc/src/components/ui/cva.ts:8-28 | with size `sm` by default, tone `primary` and className `extra`, the output is `btn btn-sm btn-primary extra` |
| `CvaExamples.ButtonWithSize` | apps/doc/src/components/ui/cva.ts:8-28 | a chosen size `lg` overrides the default; the tone, with no value, adds nothing: `btn btn-lg` |
| `CvaExamples.ButtonWithoutSizeToken` | apps/doc/src/components/ui/cva.ts:8-28 | an unknown size `xl`, or a size set to `undefined`, gives just `btn` |

## Left out

- The internals of the `clsx` package are not modelled, only its contract on an array of strings. Its handling of objects, nested arrays and numbers is never exercised by this caller.
- JavaScript's `for...in` visits integer-like keys first, whatever the declaration order. The model walks the table in declaration order.
- Lookups that reach the prototype chain (a variant value such as `toString`) are not modelled. Both maps are treated as plain dictionaries.
- A JavaScript object cannot have two groups with the same name. The model's sequence can. The lemmas speak of group positions, so they hold either way.
- The currying is not modelled as a closure: the configuration and the options are passed in one call.
- The page markup in apps/doc/src/routes/App.tsx is static and has no logic.
- The route registration in apps/doc/src/routes/index.tsx calls a foreign router.
- The lint configuration in eslint.config.js is build tooling.
