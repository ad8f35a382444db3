/** Worked examples of the resolver on a button configuration: sizes `sm`
    and `lg`, tone `primary`, and size `sm` by default. */
module CvaExamples {
  import Clsx
  import opened Cva
  import CvaProperties

  const Size: Group := Group("size", map["sm" := "btn-sm", "lg" := "btn-lg"])
  const Tone: Group := Group("tone", map["primary" := "btn-primary"])
  const Button: Option<Config> := Some(Config(Some([Size, Tone]), Some(map["size" := "sm"])))

  /** The button's variant tokens: the size token, then the tone token. */
  lemma ButtonVariantTokens(resolved: Options)
    ensures VariantTokens(TableOf(Button), resolved) ==
      (if Contributes(Size, resolved) then [Token(Size, resolved)] else [])
      + (if Contributes(Tone, resolved) then [Token(Tone, resolved)] else [])
  {
    assert TableOf(Button) == [Size, Tone];
    assert [Size, Tone][..1] == [Size];
    assert [Size][..0] == [];
  }

  /** The default size, the chosen tone and the className, in that order. */
  lemma ButtonWithToneAndClassName()
    ensures CvaSpec("btn", Button, Some(map["tone" := Some("primary"), "className" := Some("extra")]))
         == "btn" + " " + "btn-sm" + " " + "btn-primary" + " " + "extra"
  {
    var options := Some(map["tone" := Some("primary"), "className" := Some("extra")]);
    var resolved := Effective(Button, options);
    CvaProperties.EffectiveValue(Button, options, Size.name);
    CvaProperties.EffectiveValue(Button, options, Tone.name);
    assert Lookup(resolved, Size.name) == Some("sm");
    assert Lookup(resolved, Tone.name) == Some("primary");
    ButtonVariantTokens(resolved);
    assert ClassNameTokens(options) == ["extra"];
    assert Classes("btn", Button, options) == ["btn", "btn-sm", "btn-primary", "extra"];
    FourButtonTokens();
  }

  lemma FourButtonTokens()
    ensures Clsx.Clsx(["btn", "btn-sm", "btn-primary", "extra"]) == "btn" + " " + "btn-sm" + " " + "btn-primary" + " " + "extra"
  {
    var ts := ["btn", "btn-sm", "btn-primary", "extra"];
    Clsx.KeptAllNonEmpty(ts);
    assert ts[1..] == ["btn-sm", "btn-primary", "extra"];
    assert ts[1..][1..] == ["btn-primary", "extra"];
    assert ts[1..][1..][1..] == ["extra"];
  }

  /** A chosen size overrides the default; the tone, with no value and no
      default, adds nothing. */
  lemma ButtonWithSize()
    ensures CvaSpec("btn", Button, Some(map["size" := Some("lg")])) == "btn" + " " + "btn-lg"
  {
    var options := Some(map["size" := Some("lg")]);
    var resolved := Effective(Button, options);
    CvaProperties.EffectiveValue(Button, options, Size.name);
    CvaProperties.EffectiveValue(Button, options, Tone.name);
    assert Lookup(resolved, Size.name) == Some("lg");
    assert Lookup(resolved, Tone.name) == None;
    ButtonVariantTokens(resolved);
    assert ClassNameTokens(options) == [];
    assert Classes("btn", Button, options) == ["btn", "btn-lg"];
    Clsx.KeptAllNonEmpty(["btn", "btn-lg"]);
  }

  /** An unknown size, or a size set to `undefined`, adds nothing: the
      default is not used in either case. */
  lemma ButtonWithoutSizeToken(size: Option<string>)
    requires size == Some("xl") || size == None
    ensures CvaSpec("btn", Button, Some(map["size" := size])) == "btn"
  {
    var options := Some(map["size" := size]);
    var resolved := Effective(Button, options);
    CvaProperties.EffectiveValue(Button, options, Size.name);
    CvaProperties.EffectiveValue(Button, options, Tone.name);
    assert Lookup(resolved, Size.name) == size;
    assert Lookup(resolved, Tone.name) == None;
    ButtonVariantTokens(resolved);
    assert ClassNameTokens(options) == [];
    assert Classes("btn", Button, options) == ["btn"];
    Clsx.KeptAllNonEmpty(["btn"]);
  }
}
