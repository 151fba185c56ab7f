/**
 * Plugin name resolution and the process-wide plugin cache.
 *
 * Which class names can be loaded is an input (a set of names) rather than a
 * probe of the autoloader.  A plugin instance is a value recording what it was
 * built with and what was later set on it; what a filter or validator does
 * with a value is left to the caller (see module Pipeline).
 */
module Plugins {
  import opened Wrappers
  import opened Php

  datatype PluginType = ValidatorType | FilterType | ViewHelperType

  /** The namespace prefix of each plugin kind. */
  function Prefix(t: PluginType): string {
    match t
    case ValidatorType => "Zend_Validate_"
    case FilterType => "Zend_Filter_"
    case ViewHelperType => "Zend_View_Helper_"
  }

  /**
   * `getClassFullName`: the name as given when it is loadable, else the kind's
   * prefix followed by the name with its first letter upper-cased when that is
   * loadable, else nothing.
   */
  function GetClassFullName(loadable: set<string>, cls: string, t: PluginType): (r: Option<string>)
    ensures r.Some? ==> r.value in loadable
    ensures cls in loadable ==> r == Some(cls)
    ensures r.Some? && r.value != cls ==> r.value == Prefix(t) + Ucfirst(cls)
    ensures r.None? <==> cls !in loadable && Prefix(t) + Ucfirst(cls) !in loadable
  {
    if cls in loadable then Some(cls)
    else if Prefix(t) + Ucfirst(cls) in loadable then Some(Prefix(t) + Ucfirst(cls))
    else None
  }

  /** Resolving a resolved name gives the same name back. */
  lemma ResolveIdempotent(loadable: set<string>, cls: string, t: PluginType)
    ensures var r := GetClassFullName(loadable, cls, t);
      r.Some? ==> GetClassFullName(loadable, r.value, t) == r
  {
  }

  /** `p` occurs in `s` at position `k`. */
  predicate OccursAt(s: string, p: string, k: int) {
    0 <= k && k + |p| <= |s| && s[k..k + |p|] == p
  }

  /** An occurrence past the first character is an occurrence in the tail. */
  lemma OccursShift(s: string, p: string, k: int)
    requires 1 <= k && s != []
    ensures OccursAt(s, p, k) <==> OccursAt(s[1..], p, k - 1)
  {
    if k + |p| <= |s| {
      var a := s[k..k + |p|];
      var b := s[1..][k - 1..k - 1 + |p|];
      assert |a| == |b|;
      forall i | 0 <= i < |a| ensures a[i] == b[i] {
        assert a[i] == s[k + i];
        assert b[i] == s[1..][k - 1 + i] == s[k + i];
      }
      assert a == b;
    }
  }

  /** `strpos`: the first position at which `p` occurs in `s`. */
  function IndexOf(s: string, p: string): (r: Option<nat>)
    ensures r.Some? ==> OccursAt(s, p, r.value)
    ensures r.Some? ==> forall k :: 0 <= k < r.value ==> !OccursAt(s, p, k)
    ensures r.None? ==> forall k :: !OccursAt(s, p, k)
    decreases |s|
  {
    if |s| < |p| then None
    else if s[..|p|] == p then Some(0)
    else
      var r := IndexOf(s[1..], p);
      forall k | 1 <= k ensures OccursAt(s, p, k) <==> OccursAt(s[1..], p, k - 1) {
        OccursShift(s, p, k);
      }
      assert !OccursAt(s, p, 0);
      match r
      case None => None
      case Some(i) => Some(i + 1)
  }

  /**
   * `getClassBaseName`: meant to give the short name (`Alnum` for
   * `Zend_Validate_Alnum`), it returns the tail of the name starting AT the
   * prefix, so the prefix is kept.
   */
  function GetClassBaseName(cls: string, t: PluginType): string {
    match IndexOf(cls, Prefix(t))
    case None => cls
    case Some(i) => cls[i..]
  }

  /** The base name is a suffix of the name that still begins with the prefix; a full name comes back whole. */
  lemma ClassBaseNameKeepsPrefix(cls: string, t: PluginType)
    ensures var b := GetClassBaseName(cls, t);
      |b| <= |cls| && b == cls[|cls| - |b|..]
    ensures IndexOf(cls, Prefix(t)).Some? ==> GetClassBaseName(cls, t)[..|Prefix(t)|] == Prefix(t)
    ensures |Prefix(t)| <= |cls| && cls[..|Prefix(t)|] == Prefix(t) ==> GetClassBaseName(cls, t) == cls
  {
    var p := Prefix(t);
    if |p| <= |cls| && cls[..|p|] == p {
      assert OccursAt(cls, p, 0);
    }
  }

  /** A plugin instance: its class, its constructor options, and what its setters were given. */
  datatype Plugin = Plugin(
    cls: string,
    ctorOptions: Option<map<string, Value>>,
    settings: map<string, Value>,
    templates: map<string, string>)

  /** `new $class($options)` for filters and validators, `new $class` for view helpers. */
  function Construct(t: PluginType, cls: string, options: Option<map<string, Value>>): (p: Plugin)
    ensures p.cls == cls && p.settings == map[] && p.templates == map[]
    ensures t == ViewHelperType ==> p.ctorOptions == None
    ensures t != ViewHelperType ==> p.ctorOptions == options
  {
    Plugin(cls, if t == ViewHelperType then None else options, map[], map[])
  }

  type Cache = map<(PluginType, string), Plugin>

  /** Every cached instance sits under its own class name. */
  predicate CacheValid(c: Cache) {
    forall k :: k in c ==> c[k].cls == k.1
  }

  /** `setCachedPlugin`: store the instance under its kind and its class. */
  function Store(c: Cache, t: PluginType, p: Plugin): (r: Cache)
    ensures (t, p.cls) in r && r[(t, p.cls)] == p
    ensures forall k :: k != (t, p.cls) ==> (k in r <==> k in c)
    ensures forall k :: k != (t, p.cls) && k in c ==> r[k] == c[k]
    ensures CacheValid(c) ==> CacheValid(r)
  {
    c[(t, p.cls) := p]
  }

  /** `getCachedPlugin`: the cached instance for `(t, cls)`, built and cached on a miss. */
  function Fetch(c: Cache, t: PluginType, cls: string, options: Option<map<string, Value>>): (r: (Plugin, Cache))
    ensures (t, cls) in c ==> r == (c[(t, cls)], c)
    ensures (t, cls) !in c ==> r.0 == Construct(t, cls, options) && r.1 == c[(t, cls) := r.0]
    ensures CacheValid(c) ==> CacheValid(r.1) && r.0.cls == cls
  {
    if (t, cls) in c then (c[(t, cls)], c)
    else
      var p := Construct(t, cls, options);
      (p, Store(c, t, p))
  }

  /**
   * The first instance built for a name wins: a second fetch with other
   * options returns the instance of the first and changes nothing.
   */
  lemma {:induction false} FirstInstanceWins(c: Cache, t: PluginType, cls: string, o1: Option<map<string, Value>>, o2: Option<map<string, Value>>)
    ensures var (p1, c1) := Fetch(c, t, cls, o1);
      Fetch(c1, t, cls, o2) == (p1, c1)
    ensures (t, cls) !in c ==> Fetch(c, t, cls, o1).0.ctorOptions == (if t == ViewHelperType then None else o1)
  {
  }

  /** `applyPluginOptions`: each option is handed to its setter, so it is recorded in the settings. */
  function ApplyPluginOptions(p: Plugin, options: Option<map<string, Value>>): (r: Plugin)
    ensures r.cls == p.cls && r.ctorOptions == p.ctorOptions && r.templates == p.templates
    ensures options.None? ==> r == p
    ensures options.Some? ==> r.settings.Keys == p.settings.Keys + options.value.Keys
    ensures options.Some? ==> forall k :: k in options.value ==> r.settings[k] == options.value[k]
    ensures forall k :: k in p.settings && (options.None? || k !in options.value) ==> r.settings[k] == p.settings[k]
  {
    if options.None? then p else p.(settings := p.settings + options.value)
  }

  /** A validator's `setMessages`: custom templates override those already set. */
  function SetMessages(p: Plugin, templates: map<string, string>): (r: Plugin)
    ensures r.cls == p.cls && r.ctorOptions == p.ctorOptions && r.settings == p.settings
    ensures r.templates.Keys == p.templates.Keys + templates.Keys
    ensures forall k :: k in templates ==> k in r.templates && r.templates[k] == templates[k]
    ensures forall k :: k in p.templates && k !in templates ==> k in r.templates && r.templates[k] == p.templates[k]
  {
    p.(templates := p.templates + templates)
  }

  /** The static `_pluginCache`, shared by every model. */
  class PluginCache {
    var entries: Cache

    constructor ()
      ensures entries == map[]
    {
      entries := map[];
    }

    method GetCachedPlugin(t: PluginType, cls: string, options: Option<map<string, Value>>) returns (p: Plugin)
      modifies this
      ensures (p, entries) == Fetch(old(entries), t, cls, options)
    {
      if (t, cls) !in entries {
        SetCachedPlugin(t, Construct(t, cls, options));
      }
      p := entries[(t, cls)];
    }

    method SetCachedPlugin(t: PluginType, p: Plugin)
      modifies this
      ensures entries == Store(old(entries), t, p)
    {
      if (t, p.cls) in entries {
        entries := map k | k in entries && k != (t, p.cls) :: entries[k];
      }
      entries := entries[(t, p.cls) := p];
    }

    /** `clearCachedPlugin`: forget the instances of every kind. */
    method ClearCachedPlugin()
      modifies this
      ensures entries == map[]
    {
      entries := map[];
    }
  }
}
