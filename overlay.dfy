/**
 * What `Settings.replace` computes, as a function of what it reads: the
 * attribute dictionary of the new Settings object.
 *
 * `view` is what `getattr` sees on the object being replaced (its instance
 * attributes over the class attributes), `defaults` the option names of the
 * defaults table, `kwds` the overrides and `mod` the `mod_settings` argument.
 */
module Overlay {
  import opened Values

  /** The class attributes `replace` writes into the new object. */
  const DefaultFlag := "_default"
  const ModSettings := "_mod_settings"

  /** No override is `None`. */
  predicate NoneFree(kwds: map<string, Value>)
  {
    forall k :: k in kwds ==> kwds[k] != Null
  }

  /** A name `replace` itself writes, so an override of it does not survive. */
  predicate Reserved(name: string, mod: Option<map<string, Value>>)
  {
    name == DefaultFlag || (name == ModSettings && TruthyDict(mod))
  }

  /** The `kwds` dictionary `replace` passes to the constructor. */
  function ReplacedAttrs(view: map<string, Value>, defaults: set<string>,
                         kwds: map<string, Value>, mod: Option<map<string, Value>>): (r: map<string, Value>)
    requires defaults <= view.Keys
    ensures r.Keys == kwds.Keys + defaults + {DefaultFlag} + (if TruthyDict(mod) then {ModSettings} else {})
    ensures forall k :: k in kwds && !Reserved(k, mod) ==> r[k] == kwds[k]
    ensures forall x :: x in defaults && x !in kwds && !Reserved(x, mod) ==> r[x] == view[x]
    ensures r[DefaultFlag] == Bool(false)
    ensures TruthyDict(mod) ==> r[ModSettings] == Dict(mod.value)
  {
    var filled := kwds + map x | x in defaults && x !in kwds :: view[x];
    var flagged := filled[DefaultFlag := Bool(false)];
    if TruthyDict(mod) then flagged[ModSettings := Dict(mod.value)] else flagged
  }

  /**
   * The first loop of `replace`: some key whose override is `None`, if there
   * is one.
   */
  method FindNone(kwds: map<string, Value>) returns (bad: Option<string>)
    ensures bad.None? <==> NoneFree(kwds)
    ensures bad.Some? ==> bad.value in kwds && kwds[bad.value] == Null
  {
    var pending := kwds.Keys;
    while pending != {}
      invariant pending <= kwds.Keys
      invariant forall k :: k in kwds && k !in pending ==> kwds[k] != Null
      decreases pending
    {
      var k :| k in pending;
      if kwds[k] == Null {
        return Some(k);
      }
      pending := pending - {k};
    }
    return None;
  }

  /**
   * The second loop of `replace`: `kwds.setdefault(x, getattr(self, x))` for
   * every option `x` of the defaults table, where `view` is what `getattr`
   * sees. `getattr` is evaluated first, so an option the object lacks fails
   * even when `kwds` overrides it.
   */
  method SetDefaults(kwds: map<string, Value>, defaults: set<string>, view: map<string, Value>)
    returns (r: Result<map<string, Value>>)
    ensures r.Success? <==> defaults <= view.Keys
    ensures r.Failure? ==> r.error.MissingAttribute? && r.error.name in defaults && r.error.name !in view
    ensures r.Success? ==>
              && r.value.Keys == kwds.Keys + defaults
              && (forall k :: k in kwds ==> r.value[k] == kwds[k])
              && (forall x :: x in defaults && x !in kwds ==> r.value[x] == view[x])
  {
    var out := kwds;
    var todo := defaults;
    while todo != {}
      invariant todo <= defaults
      invariant defaults - todo <= view.Keys
      invariant out.Keys == kwds.Keys + (defaults - todo)
      invariant forall k :: k in kwds ==> out[k] == kwds[k]
      invariant forall x :: x in defaults - todo && x !in kwds ==> out[x] == view[x]
      decreases todo
    {
      var x :| x in todo;
      if x !in view {
        return Failure(MissingAttribute(x));
      }
      if x !in out {
        out := out[x := view[x]];
      }
      todo := todo - {x};
    }
    return Success(out);
  }

  /** The loops of `replace` followed by its two assignments compute `ReplacedAttrs`. */
  lemma FilledThenFlagged(filled: map<string, Value>, view: map<string, Value>, defaults: set<string>,
                          kwds: map<string, Value>, mod: Option<map<string, Value>>)
    requires defaults <= view.Keys
    requires filled.Keys == kwds.Keys + defaults
    requires forall k :: k in kwds ==> filled[k] == kwds[k]
    requires forall x :: x in defaults && x !in kwds ==> filled[x] == view[x]
    ensures var flagged := filled[DefaultFlag := Bool(false)];
            ReplacedAttrs(view, defaults, kwds, mod)
              == if TruthyDict(mod) then flagged[ModSettings := Dict(mod.value)] else flagged
  {
    assert filled == kwds + map x | x in defaults && x !in kwds :: view[x];
  }

  /**
   * Lines 61-66 of `replace`: the `setdefault` loop followed by the two
   * assignments, giving the `kwds` the new object is built from.
   */
  method BuildAttrs(kwds: map<string, Value>, defaults: set<string>, view: map<string, Value>,
                    mod: Option<map<string, Value>>) returns (r: Result<map<string, Value>>)
    ensures r.Success? <==> defaults <= view.Keys
    ensures r.Failure? ==> r.error.MissingAttribute? && r.error.name in defaults && r.error.name !in view
    ensures r.Success? ==> r.value == ReplacedAttrs(view, defaults, kwds, mod)
  {
    var filled := SetDefaults(kwds, defaults, view);
    if filled.Failure? {
      return filled;
    }
    var out := filled.value[DefaultFlag := Bool(false)];
    if TruthyDict(mod) {
      out := out[ModSettings := Dict(mod.value)];
    }
    FilledThenFlagged(filled.value, view, defaults, kwds, mod);
    return Success(out);
  }

  /**
   * Overlaying no overrides keeps every option's value and only clears the
   * `_default` flag.
   */
  lemma ReplaceNothing(view: map<string, Value>, defaults: set<string>)
    requires defaults <= view.Keys
    ensures var r := ReplacedAttrs(view, defaults, map[], None);
            && r.Keys == defaults + {DefaultFlag}
            && r[DefaultFlag] == Bool(false)
            && forall x :: x in defaults && x != DefaultFlag ==> r[x] == view[x]
  {
  }

  /**
   * No attribute of the new object is `None` when the overrides are free of
   * `None` and so are the current values of the options.
   */
  lemma ReplacedNoneFree(view: map<string, Value>, defaults: set<string>,
                         kwds: map<string, Value>, mod: Option<map<string, Value>>)
    requires defaults <= view.Keys
    requires NoneFree(kwds)
    requires forall x :: x in defaults ==> view[x] != Null
    ensures NoneFree(ReplacedAttrs(view, defaults, kwds, mod))
  {
  }

  /**
   * Replacing an object's overrides by the same overrides again gives the
   * same attributes: `classAttrs` are the class attributes `getattr` falls
   * back to.
   */
  lemma {:induction false} ReplaceIdempotent(view: map<string, Value>, classAttrs: map<string, Value>,
                                             defaults: set<string>, kwds: map<string, Value>,
                                             mod: Option<map<string, Value>>)
    requires defaults <= view.Keys
    ensures var once := ReplacedAttrs(view, defaults, kwds, mod);
            ReplacedAttrs(classAttrs + once, defaults, kwds, mod) == once
  {
    var once := ReplacedAttrs(view, defaults, kwds, mod);
    var twice := ReplacedAttrs(classAttrs + once, defaults, kwds, mod);
    assert twice.Keys == once.Keys;
    forall k | k in once ensures twice[k] == once[k] {
      if k in kwds && !Reserved(k, mod) {
      } else if k in defaults && !Reserved(k, mod) {
        assert (classAttrs + once)[k] == once[k];
      }
    }
  }

  /**
   * Overlaying `k2` on an object built by overlaying `k1` gives every option
   * the value a single overlay of `k1 + k2` gives it; override names that are
   * not options are not carried over from `k1`.
   */
  lemma {:induction false} ReplaceTwice(view: map<string, Value>, classAttrs: map<string, Value>,
                                        defaults: set<string>,
                                        k1: map<string, Value>, m1: Option<map<string, Value>>,
                                        k2: map<string, Value>, m2: Option<map<string, Value>>)
    requires defaults <= view.Keys
    ensures var once := ReplacedAttrs(view, defaults, k1, m1);
            var twice := ReplacedAttrs(classAttrs + once, defaults, k2, m2);
            var joined := ReplacedAttrs(view, defaults, k1 + k2, m2);
            && (forall x :: x in defaults && !Reserved(x, m1) && !Reserved(x, m2) ==> twice[x] == joined[x])
            && (forall k :: k in k1 && k !in defaults && k !in k2 && !Reserved(k, m2) ==> k !in twice && k in joined)
  {
    var once := ReplacedAttrs(view, defaults, k1, m1);
    var twice := ReplacedAttrs(classAttrs + once, defaults, k2, m2);
    var joined := ReplacedAttrs(view, defaults, k1 + k2, m2);
    forall x | x in defaults && !Reserved(x, m1) && !Reserved(x, m2) ensures twice[x] == joined[x] {
      if x !in k2 {
        assert (classAttrs + once)[x] == once[x];
      }
    }
  }
}
