# dateparser settings, modelled in Dafny

This project models `dateparser/conf.py`, the settings core of the dateparser
library:

- the `Settings` class, with its lazily filled cache of the defaults table (`_pyfile_data`);
- its constructor, `_updateall` and `replace`, which overlays overrides on an
  existing settings object;
- the cache key `get_key`, which derives a digest from a mapping of overrides;
- the argument resolution done by the `apply_settings` decorator's `wrapper`.

Files, one module each:

- `values.dfy` (`Values`): the Python values the code handles, its errors, and
  Python's truth test on an optional dict.
- `string_order.dfy` (`StringOrder`): Python's `<=` on strings and `sorted`
  over a list of strings. Proves that a sorted permutation is unique.
- `cache_key.dfy` (`CacheKey`): `get_key`, with a dict's iteration order made
  an explicit parameter.
- `overlay.dfy` (`Overlay`): what `replace` computes, as a function of what it
  reads, plus its two loops as methods.
- `conf.dfy` (`Conf`): the stateful part.
  - `SettingsClass` is the class object, holding the cached table.
  - `Settings` is an instance, holding its attribute dictionary.
  - `LoadModule` is the module import that builds the base object.
  - `ApplySettings` is the decorator's wrapper.

Stand-ins for things the model does not interpret:

- MD5 is a parameter `digest: string -> string`.
- `str()` of a value is a parameter `str: Value -> string`.
- The external table `dateparser_data.settings.settings` is the `source` field
  of `SettingsClass`, fixed when the class is created.

Two facts about the code that the model makes explicit:

- The cache key does not uniquely identify the override set. The entry
  strings are joined without a separator, so two different override mappings
  can share a key whatever the digest. `CacheKey.GetKeyCollides` exhibits
  such a pair.
- The cache `_pyfile_data` is filled again, by running the import statement
  again, whenever its value is falsy, which includes an empty table. So
  `SettingsClass.Valid` bounds the number of fills to one only when the table
  is non-empty. The model counts fills; it does not model Python's module
  cache, which makes a repeated import return the already imported module.

## Model

| member | source | states |
|---|---|---|
| Values.TruthyDict | dateparser/conf.py:39 | a dict that may be `None` is true exactly when it is a dict with some key (the same test is made at lines 32, 47 and 65) |
| StringOrder.LessEq | dateparser/conf.py:42 | Python's `<=` on `str`; a prefix of a string sorts before it |
| StringOrder.LessEqIsLexicographic | dateparser/conf.py:42 | `LessEq` agrees with the textbook lexicographic order: a prefix, or a smaller code point at the first difference |
| StringOrder.LessEqReflexive | dateparser/conf.py:42 | every string is `<=` itself |
| StringOrder.LessEqTotal | dateparser/conf.py:42 | any two strings are comparable with `<=` |
| StringOrder.LessEqAntisymmetric | dateparser/conf.py:42 | `a <= b` and `b <= a` only for equal strings |
| StringOrder.LessEqTransitive | dateparser/conf.py:42 | `<=` on strings is transitive |
| StringOrder.Insert | dateparser/conf.py:42 | inserting into a sorted list keeps it sorted and adds exactly that element |
| StringOrder.Sort | dateparser/conf.py:42 | `sorted` returns an ascending permutation of its argument |
| StringOrder.SortedUnique | dateparser/conf.py:42 | two ascending sequences with the same elements are equal, so `sorted`'s result is determined by the multiset |
| StringOrder.SortPermutationInvariant | dateparser/conf.py:42 | `sorted` gives the same list for any two permutations of a list |
| CacheKey.EntryString | dateparser/conf.py:42 | `'%s-%s' % (key, str(value))` is the key, a hyphen, then the value's text |
| CacheKey.MapSeq | dateparser/conf.py:42 | the list comprehension applies `f` to each element, in order |
| CacheKey.EntryStrings | dateparser/conf.py:42 | the comprehension's `i`-th string is the entry string of the `i`-th key in iteration order |
| CacheKey.Join | dateparser/conf.py:43 | `''.join([])` is the empty string |
| CacheKey.JoinAppend | dateparser/conf.py:43 | `''.join` puts no separator between parts: joining `a + b` is joining `a` followed by joining `b` |
| CacheKey.GetKey | dateparser/conf.py:38-43 | `None` or an empty mapping gets the key `'default'` |
| CacheKey.MapSeqCount | dateparser/conf.py:42 | over any iteration order of a dict, the comprehension yields each entry string once per key that produces it |
| CacheKey.MapSeqPermutation | dateparser/conf.py:42 | two iteration orders of one dict give permutations of the same entry strings |
| CacheKey.GetKeyIsDigestOfSortedEntries | dateparser/conf.py:42-43 | the key of a non-empty mapping is the digest of the concatenation of any ascending arrangement of its `key-str(value)` strings |
| CacheKey.GetKeyOrderIndependent | dateparser/conf.py:42-43 | the key does not depend on the order in which the mapping's own keys iterate (dict values are unordered, see Left out) |
| CacheKey.OneEntryKey | dateparser/conf.py:42-43 | a one-option mapping's key is the digest of `key-str(value)` |
| CacheKey.TwoEntryKey | dateparser/conf.py:42-43 | a two-option mapping's key is the digest of the smaller entry string followed by the larger, in either iteration order |
| CacheKey.GetKeyCollides | dateparser/conf.py:42-43 | when `a != b` and `a-x` sorts before `b-y`, `{a: x+b+"-"+y}` and `{a: x, b: y}` are different mappings with the same key, for any digest |
| Overlay.ReplacedAttrs | dateparser/conf.py:61-66 | the new object's attributes: the overrides, plus the current value of every table option they leave out, with `_default` false and `_mod_settings` set when `mod_settings` is a non-empty dict |
| Overlay.FindNone | dateparser/conf.py:57-59 | finds a `None` override exactly when there is one, and the key it names holds `None` |
| Overlay.SetDefaults | dateparser/conf.py:61-62 | fails with the missing attribute exactly when some table option is not an attribute; otherwise keeps every override and fills each other option from `getattr` |
| Overlay.BuildAttrs | dateparser/conf.py:61-66 | the loop and the two assignments compute `ReplacedAttrs`, or fail exactly when some table option is not an attribute |
| Overlay.FilledThenFlagged | dateparser/conf.py:61-66 | a dictionary filled as `setdefault` fills it, then flagged, equals `ReplacedAttrs` |
| Overlay.ReplaceNothing | dateparser/conf.py:56-68 | replacing with no overrides keeps every option's value and only adds `_default = False` |
| Overlay.ReplacedNoneFree | dateparser/conf.py:56-68 | no attribute of the new object is `None` when neither the overrides nor the current option values are |
| Overlay.ReplaceIdempotent | dateparser/conf.py:56-68 | replacing the result with the same overrides again gives the same attributes |
| Overlay.ReplaceTwice | dateparser/conf.py:56-68 | two successive replaces give every option the value one replace with the merged overrides gives it; non-option names from the first overrides are dropped |
| Conf.SettingsClass.constructor | dateparser/conf.py:27-29 | the class starts with the cache `_pyfile_data` unfilled |
| Conf.SettingsClass.GetSettingsFromPyfile | dateparser/conf.py:45-50 | returns the imported table and caches it, filling the cache again only when it is falsy |
| Conf.SettingsClass.ClassAttrs | dateparser/conf.py:27-29 | the class attributes are `_default = True`, `_mod_settings = {}` and `_pyfile_data` |
| Conf.Settings.View | dateparser/conf.py:62 | `getattr` finds an instance attribute first and a class attribute otherwise |
| Conf.Settings.constructor | dateparser/conf.py:31-35 | the attributes are the given settings when they are a non-empty dict, otherwise the defaults table, the cache being filled on demand |
| Conf.Settings.UpdateAll | dateparser/conf.py:52-54 | every item is set as an attribute, the later value winning |
| Conf.Settings.Replace | dateparser/conf.py:56-68 | raises on a `None` override before touching anything, fills the cache if falsy (counted like `GetSettingsFromPyfile`), raises on an option the object lacks, otherwise returns a new object with the `ReplacedAttrs` attributes; the object itself never changes |
| Conf.Settings.ReplaceChecked | dateparser/conf.py:61-68 | the part of `replace` after the `None` check: the cache is filled if falsy, counted like `GetSettingsFromPyfile`, and the new object built from `BuildAttrs` |
| Conf.LoadModule | dateparser/conf.py:71 | the import fills the cache once and the base object holds exactly the table's options |
| Conf.Truthy | dateparser/conf.py:78 | the truth test of the `settings` argument; a dict argument is tested as a dict, a `Settings` object and any other object are true |
| Conf.ApplySettings | dateparser/conf.py:74-88 | absent or false `settings` become the base object; a `Settings` passes through; a non-empty dict becomes `settings.replace(mod_settings=d, **d)`, which raises when `d` has a key `mod_settings` or `self`, raises on a `None` value without touching the cache, fills the cache otherwise, and raises on a missing option; anything else raises; the other keyword arguments are untouched |
| Conf.ApplySettingsTwice | dateparser/conf.py:74-88 | resolving the wrapper's output again changes nothing |

## Left out

- The MD5 digest and the UTF-8 encoding before it are an uninterpreted function parameter.
- Python's `str()` of an option value is an uninterpreted function parameter, except `TextStr`, which the collision example uses for strings.
- The import of `dateparser_data.settings` is replaced by the class's `source` field. Its contents and the semantics of each option are not modelled.
- The `registry` decorator on the class is not part of this model; `dateparser/utils` is not part of this model. The class is modelled undecorated, so the `fresh` results of `Conf.Settings.Replace`, `Conf.Settings.ReplaceChecked`, `Conf.ApplySettings` and `Conf.LoadModule` are promised for the undecorated class only; a decorator that reuses instances would break them.
- `functools.wraps`, positional arguments and the call to the wrapped function `f` are left out. `ApplySettings` returns the keyword arguments `f` would receive.
- Thread safety of the lazy cache fill is not modelled. The model is sequential.
- `getattr` sees only instance attributes and the three data class attributes. Methods of the class and attributes of subclasses (`self.__class__`) are not modelled.
- `mod_settings` is modelled only as an optional dict. `replace` called directly with some other truthy object is not modelled.
- Python's raising of `TypeError` for a non-string key in `**kwds` is not modelled; keys are strings.
- The wording of the error messages is not modelled, only which error is raised and which kind of key it names.
- CacheKey.GetKeyOrderIndependent: dict values (`Value.Dict`) are modelled as immutable, unordered maps. Python's `str()` of a dict follows its insertion order, so two equal dict values inserted in different orders can give different entry strings and different keys; order independence is proved for the top-level iteration order of the override mapping only. Likewise `replace` stores the caller's `mod_settings` dict itself as `_mod_settings`, so later changes to that dict show through the new object; the model stores a copy and does not capture this aliasing.
- Overlay.FindNone: names some key whose override is `None`, not necessarily the first one in the insertion order of `kwds` that Python's loop stops at, because the dictionaries are modelled without an order.
- Overlay.SetDefaults: names some table option the object lacks, not necessarily the first one in the table's order that Python's loop stops at, for the same reason. `Conf.Settings.Replace`, `Conf.Settings.ReplaceChecked` and `Conf.ApplySettings` inherit both.
