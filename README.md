# Media asset model of the Twill CMS, in Dafny

This project models the core of Twill's `Media` Eloquent model
(`src/Models/Media.php`): how a media asset's fillable fields and casts are
built from configuration, how a per-placement metadata value is resolved
with locale fallback, how the asset's owners are found through the
polymorphic association table (`twill_mediables`) and projected into uniform
descriptors, when an asset may be deleted, and the `dimensions` and alt-text
string helpers.

Modules:

- `Wrappers` (`wrappers.dfy`): `Option` (PHP `null`) and `Result` (an operation that may raise).
- `PhpValues` (`php_values.dfy`): PHP values after JSON decoding, PHP truthiness, `??` and
  property/offset access with `??`.
- `MediaModel` (`media.dfy`): class `Media` with `fillable` and `casts`, built by the constructor.
- `Metadata` (`metadata.dfy`): `getMetadata` as a total function with one lemma per branch.
- `Mediables` (`mediables.dfy`): the association table as a sequence of rows, the owner count and
  `canDeleteSafely`.
- `Owners` (`owners.dfy`): `getOwners` and `getOwnerDetails`. The morph map, the container
  lookup, `getShortName`, `Str::plural`, `classHasTrait(…, HasSlug)`, `instanceof Block`, the route
  prefix configuration and `moduleRoute` are the fields of a `Runtime` value.
- `Presentation` (`presentation.dfy`): `getDimensionsAttribute` and `altTextFrom`.

Behaviour of the source worth knowing, which the model keeps:

- An owner type the container cannot resolve is not dropped: `resolve($class)` raises, and the
  exception leaves `getOwners`. `Owners.LoadAll` returns `Failure(class)` for the first such row, and
  `getOwnerDetails` passes the failure on. Only a missing entity or a block without parent is dropped.
- Among non-null payload entries, only an object (`is_object`) sends `getMetadata` to the asset
  fallback; a JSON list, `false`, `0` or `""` stored under a field is returned as it is (line 126).
- Only the block branch of `getOwnerDetails` can produce an empty entry that the final `filter()`
  removes; a non-block owner is always described.
- Line 110 tests `$fallback` for truthiness, line 112 for null. A fallback field named `""` or `"0"`
  therefore reads the attribute `$name` but takes its translatability and its fallback-locale
  value from the field `""` or `"0"`. `Metadata.ReadField` and `Metadata.FallbackField` keep that.

## Model

| member | source | states |
|---|---|---|
| `MediaModel.Media.constructor` | src/Models/Media.php:25-36 | `fillable` is the six base fields followed by the configured extra field names in order; every configured translatable field is cast to `json`; every other inherited cast is unchanged and no other key is added |
| `MediaModel.ExtraFieldNames` | src/Models/Media.php:27-29 | one name per configured extra field, in configuration order |
| `MediaModel.FillableCoversConfiguration` | src/Models/Media.php:16-29 | base fields and every configured extra field name end up fillable |
| `Presentation.Dimensions` | src/Models/Media.php:38-41 | the result is the width's string form, one `x`, then the height's string form |
| `Presentation.DimensionsReadBack` | src/Models/Media.php:38-41 | for natural width and height the first `x` sits right after the width's digits, and both halves read back as the width and the height |
| `Presentation.NatToString` | src/Models/Media.php:40 | PHP's conversion of a natural number yields a non-empty string of decimal digits with no leading zero, a single digit exactly for numbers below 10 |
| `Presentation.IntToString` | src/Models/Media.php:40 | PHP's conversion of an integer: a leading `-` exactly for negatives, followed by the canonical digits (no leading zero) whose value is the magnitude |
| `Presentation.ToPhpString` | src/Models/Media.php:40 | the `.` conversion of a scalar: null and false give `""`, true gives `"1"`, an integer its decimal form, a string itself |
| `Presentation.DigitsValueOfNatToString` | src/Models/Media.php:40 | reading the decimal digits of a number back gives that number |
| `Presentation.StripTrailingSlashes` | src/Models/Media.php:45 | a prefix of the path that does not end in `/`, everything removed being `/` |
| `Presentation.Basename` | src/Models/Media.php:45 | `basename` is the suffix of the path without its trailing slashes that follows its last `/` (all of it when there is none), and contains no `/` |
| `Presentation.PathFilename` | src/Models/Media.php:45 | `pathinfo(…, PATHINFO_FILENAME)` is the basename cut before its last `.`, or the whole basename when it has no `.`; never contains `/` |
| `Presentation.EndsWith` | src/Models/Media.php:46 | `Str::endsWith`: when true, the string is some prefix followed by the suffix |
| `Presentation.TrimRetinaSuffix` | src/Models/Media.php:46-48 | a name ending in `@2x` loses exactly `2x` and keeps the `@`; any other name is unchanged |
| `Presentation.ReplaceNonAlnum` | src/Models/Media.php:50 | same length; ASCII letters and digits kept, every other character becomes a space |
| `Presentation.ToUpper` | src/Models/Media.php:50 | ASCII upper-casing: a lower-case letter becomes the matching upper-case letter, any other character is kept |
| `Presentation.Ucwords` | src/Models/Media.php:50 | same length; the first character of each word is upper-cased, every other character kept |
| `Presentation.AltTextFrom` | src/Models/Media.php:43-51 | the alt text is as long as the sanitised stem; a space exactly where the stem had a character other than an ASCII letter or digit; at every letter or digit, the stem's character, upper-cased when it starts a word |
| `Presentation.CapitalisedReplacement` | src/Models/Media.php:50 | `ucwords` after the replacement keeps the length, puts a space exactly where the input had a character other than an ASCII letter or digit, and keeps every letter and digit, upper-cased exactly when it starts a word |
| `Presentation.AltTextIsStable` | src/Models/Media.php:50 | text of the alt-text shape is a fixed point of both the replacement and `ucwords` |
| `Presentation.PlainNameIsItsOwnStem` | src/Models/Media.php:45 | a name with no `/` and no `.` is its own `pathinfo` stem |
| `Presentation.RetinaTrim` | src/Models/Media.php:46-48 | the retina step turns `hero@2x` into `hero@` |
| `Presentation.RetinaWords` | src/Models/Media.php:50 | the replacement and `ucwords` turn the stem `hero@` into `Hero ` |
| `Presentation.RetinaExample` | src/Models/Media.php:43-51 | with `sanitizeFilename` taken as the identity, `AltTextFrom("hero@2x")` is `Hero `: the retina trim leaves `hero@` and the `@` turns into a space |
| `Mediables.RowsFor` | src/Models/Media.php:139-140 | the selected rows are exactly the table's rows with this `media_id`, never more rows than the table |
| `Mediables.RowsForAppend` | src/Models/Media.php:139-140 | selecting from a concatenation is concatenating the selections: table order and multiplicity are kept |
| `Mediables.RowsForSingle` | src/Models/Media.php:139-140 | a single row is selected exactly when its `media_id` is this asset's |
| `Mediables.OwnerCount` | src/Models/Media.php:55 | `count()` equals the number of rows `get()` returns for the same asset, and is at most the table's size |
| `Mediables.OwnerCountZeroIff` | src/Models/Media.php:55 | the count is zero exactly when no row has this `media_id` |
| `Mediables.CanDeleteSafely` | src/Models/Media.php:53-56 | true exactly when no association row has this asset's id, equivalently when the selection is empty |
| `Mediables.DeleteGuardExample` | src/Models/Media.php:53-56 | an asset no row refers to is deletable; one referred to is not |
| `Owners.ResolveClass` | src/Models/Media.php:144 | the class of a type tag is its morph-map entry when there is one, otherwise the tag itself |
| `Owners.Resolvable` | src/Models/Media.php:146 | whether `resolve` succeeds for the morph-map entry of the row's type, or for the raw type when it has none |
| `Owners.Load` | src/Models/Media.php:146 | `find(mediable_id)` on the morph-map entry of the row's type, or on the raw type when it has none |
| `Owners.LoadAll` | src/Models/Media.php:143-148 | succeeds exactly when every row's class (morph-map entry or raw tag) resolves; then one lookup result per row, in row order; otherwise fails naming the class of the first row that does not resolve |
| `Owners.GetOwners` | src/Models/Media.php:134-149 | on success, one element per association row of this asset, in table order, the i-th being the lookup of the i-th such row; succeeds exactly when all those rows resolve |
| `Owners.Lcfirst` | src/Models/Media.php:158 | an ASCII upper-case first character is lowered; any other first character is kept, as are the rest and the length |
| `Owners.ModuleOf` | src/Models/Media.php:158-163 | the module name is `Str::plural` of the `lcfirst`ed short class name |
| `Owners.Project` | src/Models/Media.php:165-185 | the descriptor of a subject: its id, slug only when its class has the slug trait (null otherwise), title attribute value, titleKey, the subject itself, the module name, and the `edit` route built from module, configured route prefix and id |
| `Owners.Describe` | src/Models/Media.php:157-185 | a non-block is always described by itself; a block is described exactly when its `blockable` exists and its module name is truthy, and then by that parent; the descriptor's id, module (plural lcfirst short class name), titleKey and name are those of the described entity; slug is null unless the entity's class has the slug trait |
| `Owners.OwnerDetails` | src/Models/Media.php:155-187 | never more descriptors than owners |
| `Owners.GetOwnerDetails` | src/Models/Media.php:151-189 | raises exactly when `getOwners` raises; otherwise at most as many descriptors as association rows of this asset |
| `Owners.OwnerDetailsAppend` | src/Models/Media.php:155-187 | the projection of a concatenation is the concatenation of the projections: records are handled independently and order is kept |
| `Owners.DroppedRecord` | src/Models/Media.php:155-173 | a missing entity or a block without parent contributes nothing: removing it from the owners leaves the result unchanged |
| `Owners.AllContribute` | src/Models/Media.php:155-187 | when every owner is describable, the result has one descriptor per owner, the k-th describing the k-th owner (re-indexed from 0) |
| `Owners.OwnerDetailsSound` | src/Models/Media.php:155-187 | every descriptor is the description of some existing owner |
| `Owners.OwnerDetailsComplete` | src/Models/Media.php:155-187 | every existing, describable owner's descriptor is in the result |
| `Owners.GetOwnerDetailsSound` | src/Models/Media.php:151-189 | every descriptor's model is an entity loaded from one of this asset's rows (non-block) or that block's `blockable` parent |
| `Owners.GetOwnerDetailsComplete` | src/Models/Media.php:151-189 | every row of this asset whose entity exists and is describable has its descriptor in the result |
| `Owners.DeletableHasNoOwners` | src/Models/Media.php:151-189 | an asset that may be deleted has no owner descriptors |
| `Owners.ArticleExample` | src/Models/Media.php:151-189 | a deleted entity and article 5 titled "Hello" give exactly one descriptor: id 5, name "Hello", module "articles" |
| `Metadata.OrEmpty` | src/Models/Media.php:123 | `?? ''` keeps a non-null value and turns null into `''` |
| `Metadata.ReadField` | src/Models/Media.php:110 | the attribute first read is `$fallback` when it is given and truthy, `$name` when it is absent, `""` or `"0"` |
| `Metadata.FallbackField` | src/Models/Media.php:112 | the effective fallback field is `$fallback` whenever it is given (even `""` or `"0"`), `$name` otherwise |
| `Metadata.AssetFallbackValue` | src/Models/Media.php:110-120 | for a non-translatable fallback field, the attribute read (`$fallback` if truthy, else `$name`); for a translatable one, never null and one of: the current-locale entry, the fallback-locale entry, or `''`; a current-locale entry other than null and `''` wins; with property fallback off it is the current-locale entry or `''`; with property fallback on and the current-locale entry null or `''`, it is the fallback field's fallback-locale entry or `''` |
| `Metadata.AssetCreditExample` | src/Models/Media.php:114-119 | the translatable attribute `{credit: {en: "Jane"}}` read in `fr` with fallback locale `en` and property fallback on reduces to `Jane` |
| `Metadata.GetMetadata` | src/Models/Media.php:95-127 | never null; a truthy current-locale payload entry is always the result; the result is always the current-locale entry, the fallback-locale entry, the raw payload entry, the asset fallback value or `''` |
| `Metadata.FallbackLocaleUsed` | src/Models/Media.php:104-108 | with no truthy current-locale entry, a translatable field with property fallback on and a truthy fallback-locale entry resolves to that entry |
| `Metadata.LocaleObjectFallsBackToAsset` | src/Models/Media.php:122-124 | a locale object with no usable hit (or a non-translatable field, or property fallback off) resolves to the asset fallback value or `''`, not to the object |
| `Metadata.PlainEntryReturned` | src/Models/Media.php:126 | a non-null entry that is not an object or array map is returned as it is, truthy or not |
| `Metadata.MissingEntryFallsBackToAsset` | src/Models/Media.php:126 | with no (or a null) payload entry the result is the asset fallback value or `''` |
| `Metadata.CreditExample` | src/Models/Media.php:95-127 | `{"credit": {"en": "Jane"}}` read in `fr` with fallback locale `en` and property fallback on gives `Jane` |

## Left out

- `toCmsArray` (lines 58-93): URL building through the image service and `route`/`moduleRoute`, and the
  `tags` relation, are calls into code outside this model with no logic of their own to verify.
- `getTable` (lines 129-132): returns a configured table name; the association table is passed in as rows.
- Database access: the association table is a sequence of `(media_id, mediable_type, mediable_id)` rows;
  connection errors are not modelled. Concurrent writers, and so the staleness of `canDeleteSafely`, are
  left to the storage layer.
- `json_decode` of the pivot's `metadatas` and the `(object)` cast: the payload is taken already decoded as a
  map from field names to values.
- `parent::__construct` and Eloquent mass assignment of the constructor's `$attributes`; the casts inherited
  from the base model are a constructor parameter.
- Attribute accessors: `$this->$name` reads the attribute map; an accessor the model class defines is not applied.
- `sanitizeFilename` is not part of this model; `AltTextFrom` takes it as a function parameter.
- `Presentation.ReplaceNonAlnum`: works on characters; the source's byte-wise `preg_replace` turns each byte of
  a multi-byte UTF-8 character into its own space.
- `Presentation.Dimensions`: requires scalar width and height (the columns' types); PHP's conversion of arrays
  to `"Array"` is not modelled.
- `Metadata.GetMetadata`: a payload entry that is an associative array (`Dict`) is read like an object, whereas
  PHP's `->` on an array yields null; `json_decode` without the associative flag never produces one in the payload.
- `Owners.Describe`: `moduleRoute` is a total function; the route helper behind it (not part of this model) ends in
  Laravel's `route()`, which raises for an undefined route name, so `getOwnerDetails` could raise for an owner
  whose module has no `edit` route.
- `PhpValues.Member`: numeric string keys into lists and strings (e.g. a locale named `"0"`) read as null,
  and `[]` on a `stdClass` (an error in PHP) reads like `->`; locale codes and cast attributes never hit these.
- `Metadata.GetMetadata`: `in_array` is compared exactly; PHP's loose comparison of numeric-looking field
  names is not modelled. An unset `translatable.fallback_locale` is represented by the empty string.
- Floating-point values in payloads and attributes.
- The dotted configuration lookup `browser_route_prefixes.<module>` is a single map lookup; module names
  containing dots are not split.
