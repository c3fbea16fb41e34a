/**
 * The `Settings` class of dateparser's `conf.py` and the argument resolution
 * of its `apply_settings` decorator.
 *
 * Python keeps part of the state on the class object and part on each
 * instance. `SettingsClass` is the class object: the cached defaults table
 * `_pyfile_data`, plus the imported table it is filled from. `Settings` is an
 * instance: its attribute dictionary, and the class it belongs to.
 */
module Conf {
  import opened Values
  import opened Overlay

  const PyfileData := "_pyfile_data"

  /** The class object `Settings` and its lazily loaded defaults table. */
  class SettingsClass {
    /** `dateparser_data.settings.settings`, the external defaults table. */
    const source: map<string, Value>
    /** The class attribute `_pyfile_data`; `None` until first filled. */
    var pyfileData: Option<map<string, Value>>
    /** How many times the cache has been filled by running the import statement. */
    ghost var loads: nat

    ghost predicate Valid()
      reads this
    {
      && (pyfileData.None? ==> loads == 0)
      && (pyfileData.Some? ==> pyfileData.value == source && loads >= 1)
      && (source != map[] ==> loads <= 1)
    }

    /** The class as defined: the cache not yet filled. */
    constructor (source: map<string, Value>)
      ensures Valid()
      ensures this.source == source && pyfileData == None && loads == 0
    {
      this.source := source;
      pyfileData := None;
      loads := 0;
    }

    /**
     * `_get_settings_from_pyfile`: runs the import statement and fills the
     * cache from it while the cache is falsy (never filled, or filled with an
     * empty table), then returns the cache.
     */
    method GetSettingsFromPyfile() returns (table: map<string, Value>)
      requires Valid()
      modifies this
      ensures Valid()
      ensures table == source
      ensures pyfileData == Some(source)
      ensures loads == if TruthyDict(old(pyfileData)) then old(loads) else old(loads) + 1
    {
      if !TruthyDict(pyfileData) {
        pyfileData := Some(source);
        loads := loads + 1;
      }
      table := pyfileData.value;
    }

    /** The class attributes that `getattr` on an instance falls back to. */
    function ClassAttrs(): (attrs: map<string, Value>)
      reads this
      ensures attrs.Keys == {DefaultFlag, ModSettings, PyfileData}
      ensures attrs[DefaultFlag] == Bool(true) && attrs[ModSettings] == Dict(map[])
    {
      map[DefaultFlag := Bool(true),
          ModSettings := Dict(map[]),
          PyfileData := if pyfileData.Some? then Dict(pyfileData.value) else Null]
    }
  }

  /** An instance of `Settings`. */
  class Settings {
    const cls: SettingsClass
    /** The instance attributes, as set by `setattr`. */
    var attrs: map<string, Value>

    /** What `getattr(self, name)` finds: an instance attribute, else a class attribute. */
    function View(): (view: map<string, Value>)
      reads this, cls
      ensures forall name :: name in view <==> name in attrs || name in cls.ClassAttrs()
      ensures forall name :: name in attrs ==> view[name] == attrs[name]
      ensures forall name :: name in view && name !in attrs ==> view[name] == cls.ClassAttrs()[name]
    {
      cls.ClassAttrs() + attrs
    }

    /**
     * `Settings(settings)`: the attributes come from `settings` when it is a
     * non-empty dictionary, and from the defaults table otherwise.
     */
    constructor (cls: SettingsClass, settings: Option<map<string, Value>>)
      requires cls.Valid()
      modifies cls
      ensures this.cls == cls && cls.Valid()
      ensures attrs == if TruthyDict(settings) then settings.value else cls.source
      ensures TruthyDict(settings) ==> unchanged(cls)
      ensures !TruthyDict(settings) ==>
                cls.pyfileData == Some(cls.source)
                && cls.loads == if TruthyDict(old(cls.pyfileData)) then old(cls.loads) else old(cls.loads) + 1
    {
      this.cls := cls;
      attrs := map[];
      new;
      if TruthyDict(settings) {
        UpdateAll(settings.value);
      } else {
        var table := cls.GetSettingsFromPyfile();
        UpdateAll(table);
      }
    }

    /** `_updateall`: `setattr` of every entry of `items`. */
    method UpdateAll(items: map<string, Value>)
      modifies this`attrs
      ensures attrs == old(attrs) + items
    {
      var pending := items.Keys;
      while pending != {}
        invariant pending <= items.Keys
        invariant attrs == old(attrs) + map k | k in items.Keys - pending :: items[k]
        decreases pending
      {
        var k :| k in pending;
        attrs := attrs[k := items[k]];
        pending := pending - {k};
      }
      assert items.Keys - pending == items.Keys;
    }

    /**
     * `replace(mod_settings, **kwds)`: a new object whose attributes are
     * `kwds`, filled in with this object's value of every option of the
     * defaults table that `kwds` leaves out, with `_default` cleared and
     * `_mod_settings` recorded when `mod_settings` is a non-empty dict.
     * This object is never changed.
     */
    method Replace(modSettings: Option<map<string, Value>>, kwds: map<string, Value>) returns (r: Result<Settings>)
      requires cls.Valid()
      modifies cls
      ensures cls.Valid()
      ensures unchanged(this)
      // an override that is None: TypeError, before anything is loaded or built
      ensures !NoneFree(kwds) <==> r.Failure? && r.error.InvalidOverride?
      ensures r.Failure? && r.error.InvalidOverride? ==>
                r.error.key in kwds && kwds[r.error.key] == Null && unchanged(cls)
      ensures NoneFree(kwds) ==> cls.pyfileData == Some(cls.source)
      ensures NoneFree(kwds) ==>
                cls.loads == if TruthyDict(old(cls.pyfileData)) then old(cls.loads) else old(cls.loads) + 1
      // getattr of an option this object lacks: AttributeError
      ensures NoneFree(kwds) && !(cls.source.Keys <= View().Keys) <==> r.Failure? && r.error.MissingAttribute?
      ensures r.Failure? && r.error.MissingAttribute? ==>
                r.error.name in cls.source && r.error.name !in View()
      ensures r.Failure? ==> r.error.InvalidOverride? || r.error.MissingAttribute?
      ensures r.Success? ==>
                && fresh(r.value) && r.value.cls == cls
                && cls.source.Keys <= View().Keys
                && r.value.attrs == ReplacedAttrs(View(), cls.source.Keys, kwds, modSettings)
    {
      var bad := FindNone(kwds);
      if bad.Some? {
        return Failure(InvalidOverride(bad.value));
      }
      r := ReplaceChecked(modSettings, kwds);
    }

    /** `replace` once no override has been found to be `None`. */
    method ReplaceChecked(modSettings: Option<map<string, Value>>, kwds: map<string, Value>) returns (r: Result<Settings>)
      requires cls.Valid()
      modifies cls
      ensures cls.Valid() && cls.pyfileData == Some(cls.source)
      ensures cls.loads == if TruthyDict(old(cls.pyfileData)) then old(cls.loads) else old(cls.loads) + 1
      ensures unchanged(this)
      ensures r.Success? <==> cls.source.Keys <= View().Keys
      ensures r.Failure? ==> r.error.MissingAttribute? && r.error.name in cls.source && r.error.name !in View()
      ensures r.Success? ==>
                && fresh(r.value) && r.value.cls == cls
                && r.value.attrs == ReplacedAttrs(View(), cls.source.Keys, kwds, modSettings)
    {
      var defaults := cls.GetSettingsFromPyfile();
      var view := View();
      var built := BuildAttrs(kwds, defaults.Keys, view, modSettings);
      if built.Failure? {
        return Failure(built.error);
      }
      // `kwds` now holds `_default`, so the constructor takes its first branch
      assert DefaultFlag in built.value;
      var replaced := new Settings(cls, Some(built.value));
      assert View() == view;
      r := Success(replaced);
    }
  }

  /** The module's import: the class is defined and the base object `settings` built. */
  method LoadModule(source: map<string, Value>) returns (cls: SettingsClass, base: Settings)
    ensures fresh(cls) && fresh(base) && base.cls == cls && cls.Valid()
    ensures cls.source == source && cls.pyfileData == Some(source) && cls.loads == 1
    ensures base.attrs == source
  {
    cls := new SettingsClass(source);
    base := new Settings(cls, None);
  }

  /** A value passed as the `settings` keyword argument. */
  datatype Arg =
    | Falsy                                // None, False, 0, "" and other false values
    | Mapping(entries: map<string, Value>) // a dict (the empty dict is false too)
    | Instance(obj: Settings)             // a Settings object (always true)
    | Other                                // any other true value

  /** Python's `bool(a)`; a dict argument is tested as a dict. */
  predicate Truthy(a: Arg)
    ensures a.Mapping? ==> (Truthy(a) <==> TruthyDict(Some(a.entries)))
    ensures a.Instance? || a.Other? ==> Truthy(a)
  {
    match a
    case Falsy => false
    case Mapping(d) => d != map[]
    case Instance(_) => true
    case Other => true
  }

  const SettingsKey := "settings"

  /** The named parameters of `replace` besides `**kwds`. */
  const SelfParam := "self"
  const ModSettingsParam := "mod_settings"

  /**
   * The `wrapper` built by `apply_settings`: resolves `kwargs['settings']`
   * against the module's base object `base` and returns the keyword
   * arguments the wrapped function is called with.
   */
  method ApplySettings(base: Settings, kwargs: map<string, Arg>) returns (r: Result<map<string, Arg>>)
    requires base.cls.Valid()
    modifies base.cls
    ensures base.cls.Valid() && unchanged(base)
    // every other keyword argument is passed on unchanged
    ensures r.Success? ==>
              && r.value.Keys == kwargs.Keys + {SettingsKey}
              && r.value[SettingsKey].Instance?
              && forall k :: k in kwargs && k != SettingsKey ==> r.value[k] == kwargs[k]
    // absent or false: the base object
    ensures (SettingsKey !in kwargs || !Truthy(kwargs[SettingsKey])) ==>
              r == Success(kwargs[SettingsKey := Instance(base)]) && unchanged(base.cls)
    // a Settings object: passed through
    ensures SettingsKey in kwargs && kwargs[SettingsKey].Instance? ==>
              r == Success(kwargs) && unchanged(base.cls)
    // anything else that is true: TypeError
    ensures SettingsKey in kwargs && kwargs[SettingsKey].Other? ==>
              r == Failure(InvalidSettingsType) && unchanged(base.cls)
    // a non-empty dict: replace(mod_settings=d, **d) on the base object
    ensures SettingsKey in kwargs && kwargs[SettingsKey].Mapping? && Truthy(kwargs[SettingsKey]) ==>
              var d := kwargs[SettingsKey].entries;
              // a key that is also a named parameter of `replace`: TypeError
              && (ModSettingsParam in d ==> r == Failure(DuplicateKeyword(ModSettingsParam)) && unchanged(base.cls))
              && (ModSettingsParam !in d && SelfParam in d ==>
                    r == Failure(DuplicateKeyword(SelfParam)) && unchanged(base.cls))
              && (ModSettingsParam !in d && SelfParam !in d && !NoneFree(d) ==>
                    && r.Failure? && r.error.InvalidOverride?
                    && r.error.key in d && d[r.error.key] == Null
                    && unchanged(base.cls))
              && (ModSettingsParam !in d && SelfParam !in d && NoneFree(d) ==>
                    && base.cls.pyfileData == Some(base.cls.source)
                    && base.cls.loads == if TruthyDict(old(base.cls.pyfileData)) then old(base.cls.loads)
                                         else old(base.cls.loads) + 1)
              && (ModSettingsParam !in d && SelfParam !in d && NoneFree(d)
                    && !(base.cls.source.Keys <= base.View().Keys) ==>
                    && r.Failure? && r.error.MissingAttribute?
                    && r.error.name in base.cls.source && r.error.name !in base.View())
              && (ModSettingsParam !in d && SelfParam !in d && NoneFree(d)
                    && base.cls.source.Keys <= base.View().Keys ==>
                    && r.Success?
                    && var obj := r.value[SettingsKey].obj;
                    && fresh(obj) && obj.cls == base.cls
                    && obj.attrs == ReplacedAttrs(base.View(), base.cls.source.Keys, d, Some(d)))
  {
    var given := if SettingsKey in kwargs then kwargs[SettingsKey] else Falsy;
    var resolved := if Truthy(given) then given else Instance(base);
    var kw := kwargs[SettingsKey := resolved];

    if resolved.Mapping? {
      var d := resolved.entries;
      // a key of `d` that `replace` also receives by name: `mod_settings`
      // clashes while the call's keywords are merged, `self` when they are bound
      if ModSettingsParam in d {
        return Failure(DuplicateKeyword(ModSettingsParam));
      }
      if SelfParam in d {
        return Failure(DuplicateKeyword(SelfParam));
      }
      var replaced := base.Replace(Some(d), d);
      if replaced.Failure? {
        return Failure(replaced.error);
      }
      kw := kw[SettingsKey := Instance(replaced.value)];
    }

    assert given.Instance? ==> kw == kwargs;
    if !kw[SettingsKey].Instance? {
      return Failure(InvalidSettingsType);
    }
    r := Success(kw);
  }

  /**
   * Resolving the keyword arguments the wrapper produced once more changes
   * nothing: a resolved object is never wrapped again.
   */
  method ApplySettingsTwice(base: Settings, kwargs: map<string, Arg>) returns (first: Result<map<string, Arg>>, second: Result<map<string, Arg>>)
    requires base.cls.Valid()
    modifies base.cls
    ensures first.Success? ==> second == first
  {
    first := ApplySettings(base, kwargs);
    if first.Success? {
      second := ApplySettings(base, first.value);
    } else {
      second := first;
    }
  }
}
