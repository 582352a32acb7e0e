/**
 * Filter configuration: the include lists, how they are parsed, and how the
 * override property files are merged into the defaults.
 * A property file is modelled as the `map<string, string>` it loads into.
 */
module Configuration {
  import opened Wrappers
  import opened JavaStrings

  type Properties = map<string, string>

  /** The property holding the exact functional-interface names to trace. */
  const LambdaIncludesKey: string := "lambda.includes"
  /** The property holding the owner-class name prefixes to trace. */
  const PackageIncludesKey: string := "package.includes"

  /**
   * `parseIncludes`: a null configuration gives the empty set; otherwise the
   * result is exactly the set of non-empty comma-separated segments.
   */
  function ParseIncludes(configuration: Option<string>): (r: set<string>)
    ensures "" !in r
    ensures forall x :: x in r ==> ',' !in x
    ensures configuration.None? ==> r == {}
    ensures configuration.Some? ==>
      forall x :: x in r <==> x != "" && x in Segments(configuration.value)
  {
    match configuration
    case None => {}
    case Some(c) => set x | x in Split(c) && x != ""
  }

  /**
   * `merge`, applied by `replaceAll` to a base value and the override's value
   * for the same key: either side missing gives the other, otherwise the two
   * are joined with a comma.
   */
  function Merge(one: Option<string>, other: Option<string>): (r: Option<string>)
    ensures r.None? <==> one.None? && other.None?
  {
    if one.None? then other
    else if other.None? then one
    else Some(one.value + "," + other.value)
  }

  /**
   * `configuration.replaceAll((k, v) -> merge(v, overrides.get(k)))`: every key
   * of the configuration is rewritten, and no key is added.
   */
  function ReplaceAll(configuration: Properties, overrides: Properties): (r: Properties)
    ensures r.Keys == configuration.Keys
    ensures forall k :: k in configuration && k !in overrides ==> r[k] == configuration[k]
    ensures forall k :: k in configuration && k in overrides ==>
      r[k] == configuration[k] + "," + overrides[k]
  {
    map k | k in configuration :: Merge(Some(configuration[k]), Get(overrides, k)).value
  }

  /** The configuration after applying each override file in turn. */
  function ApplyOverrides(defaults: Properties, overrides: seq<Properties>): Properties
    decreases |overrides|
  {
    if |overrides| == 0 then defaults
    else ReplaceAll(ApplyOverrides(defaults, overrides[..|overrides| - 1]), overrides[|overrides| - 1])
  }

  /** The values the override files give `key`, in the order the files are applied. */
  function ValuesFor(overrides: seq<Properties>, key: string): seq<string>
    decreases |overrides|
  {
    if |overrides| == 0 then []
    else
      var last := overrides[|overrides| - 1];
      ValuesFor(overrides[..|overrides| - 1], key) + (if key in last then [last[key]] else [])
  }

  /** The union of the parsed include sets of the override files that set `key`. */
  function OverrideIncludes(overrides: seq<Properties>, key: string): set<string>
    decreases |overrides|
  {
    if |overrides| == 0 then {}
    else
      var last := overrides[|overrides| - 1];
      OverrideIncludes(overrides[..|overrides| - 1], key)
        + (if key in last then ParseIncludes(Some(last[key])) else {})
  }

  /**
   * The constructor's loop over the override files; `ensures` ties it to
   * `ApplyOverrides`, and it never adds a key the defaults lack.
   */
  method MergeConfiguration(defaults: Properties, overrides: seq<Properties>)
    returns (configuration: Properties)
    ensures configuration == ApplyOverrides(defaults, overrides)
    ensures configuration.Keys == defaults.Keys
  {
    configuration := defaults;
    for i := 0 to |overrides|
      invariant configuration == ApplyOverrides(defaults, overrides[..i])
    {
      assert overrides[..i + 1][..i] == overrides[..i];
      configuration := ReplaceAll(configuration, overrides[i]);
    }
    assert overrides[..|overrides|] == overrides;
    ApplyOverridesKeys(defaults, overrides);
  }

  /** `parseIncludes` of ",,a," and of "": the empty segments vanish. */
  lemma ParseIncludesDropsEmpty()
    ensures ParseIncludes(Some(",,a,")) == {"a"}
    ensures ParseIncludes(Some("")) == {}
  {
    var s := ",,a,";
    assert Segments("") == [""];
    assert Segments(",") == ["", ""] by { assert ","[1..] == ""; }
    assert Segments("a,") == ["a", ""] by {
      var rest := Segments(",");
      assert "a,"[1..] == "," && "a,"[0] == 'a';
      assert ['a'] + rest[0] == "a" && rest[1..] == [""];
    }
    assert Segments(",a,") == ["", "a", ""] by { assert ",a,"[1..] == "a,"; }
    assert Segments(s) == ["", "", "a", ""] by { assert s[1..] == ",a,"; }
  }

  /** Parsing a merged value gives the union of parsing each side. */
  lemma MergeParsesToUnion(one: Option<string>, other: Option<string>)
    ensures ParseIncludes(Merge(one, other)) == ParseIncludes(one) + ParseIncludes(other)
  {
    if one.Some? && other.Some? {
      SegmentsConcat(one.value, other.value);
    }
  }

  /** `replaceAll` never adds or removes a key, whatever the overrides hold. */
  lemma {:induction false} ApplyOverridesKeys(defaults: Properties, overrides: seq<Properties>)
    ensures ApplyOverrides(defaults, overrides).Keys == defaults.Keys
    decreases |overrides|
  {
    if |overrides| > 0 {
      ApplyOverridesKeys(defaults, overrides[..|overrides| - 1]);
    }
  }

  /**
   * A key of the defaults ends up holding its default value followed by the
   * override values, comma-joined in the order the files are applied.
   */
  lemma {:induction false} ApplyOverridesValue(defaults: Properties, overrides: seq<Properties>, key: string)
    requires key in defaults
    ensures key in ApplyOverrides(defaults, overrides)
    ensures ApplyOverrides(defaults, overrides)[key] == Join([defaults[key]] + ValuesFor(overrides, key))
    decreases |overrides|
  {
    ApplyOverridesKeys(defaults, overrides);
    if |overrides| > 0 {
      var init := overrides[..|overrides| - 1];
      var last := overrides[|overrides| - 1];
      ApplyOverridesValue(defaults, init, key);
      ApplyOverridesKeys(defaults, init);
      if key in last {
        JoinSnoc([defaults[key]] + ValuesFor(init, key), last[key]);
        assert [defaults[key]] + ValuesFor(overrides, key)
            == [defaults[key]] + ValuesFor(init, key) + [last[key]];
      } else {
        assert ValuesFor(overrides, key) == ValuesFor(init, key);
      }
    }
  }

  /** A key that no override file sets keeps its default value. */
  lemma ApplyOverridesUntouched(defaults: Properties, overrides: seq<Properties>, key: string)
    requires key in defaults
    requires forall i :: 0 <= i < |overrides| ==> key !in overrides[i]
    ensures key in ApplyOverrides(defaults, overrides)
    ensures ApplyOverrides(defaults, overrides)[key] == defaults[key]
  {
    ApplyOverridesValue(defaults, overrides, key);
    NoValuesFor(overrides, key);
  }

  lemma {:induction false} NoValuesFor(overrides: seq<Properties>, key: string)
    requires forall i :: 0 <= i < |overrides| ==> key !in overrides[i]
    ensures ValuesFor(overrides, key) == []
    decreases |overrides|
  {
    if |overrides| > 0 {
      NoValuesFor(overrides[..|overrides| - 1], key);
    }
  }

  /**
   * The include set read from the merged configuration: for a key of the
   * defaults, the default entries plus every override's entries; for a key
   * that only override files set, nothing at all.
   */
  lemma {:induction false} ApplyOverridesIncludes(defaults: Properties, overrides: seq<Properties>, key: string)
    ensures ParseIncludes(Get(ApplyOverrides(defaults, overrides), key))
         == if key in defaults then ParseIncludes(Some(defaults[key])) + OverrideIncludes(overrides, key)
            else {}
    decreases |overrides|
  {
    ApplyOverridesKeys(defaults, overrides);
    if |overrides| > 0 && key in defaults {
      var init := overrides[..|overrides| - 1];
      var last := overrides[|overrides| - 1];
      ApplyOverridesIncludes(defaults, init, key);
      ApplyOverridesKeys(defaults, init);
      var prev := ApplyOverrides(defaults, init);
      MergeParsesToUnion(Some(prev[key]), Get(last, key));
    }
  }
}
