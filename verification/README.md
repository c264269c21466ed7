# rails_admin AbstractModel, modelled in Dafny

This project models the core of `RailsAdmin::AbstractModel` from rails_admin
0.6.2. That core does three jobs:

- It turns each configured model name into a model with an adapter. A
  concrete ActiveRecord class gets ActiveRecord and a Mongoid document gets
  Mongoid. The resulting list is cached process-wide as `all`, and `reset`
  clears the cache.
- It builds, once per adapter, the polymorphic-parent index. The index maps
  "<underscored target class>_<as name>" to the models that own a polymorphic
  association with that target and `as` name. `reset_polymorphic_parents`
  clears it.
- It compiles one search filter into a backend predicate. The
  `StatementBuilder` handles the `_discard` sentinel and unary keywords
  first. The backend's own type builder comes next. When it declines, the
  shared date and datetime/timestamp fallbacks follow, with
  `FilteringDuration` turning an operator and a value into a pair of dates.
  The numeric builder is not a fallback: it is a shared helper that the
  backend's type builder calls for integer, decimal and float columns.

It also models the two URL names of a model, `to_param` and `param_key`.

The modules follow the source:

| module | file | models |
|---|---|---|
| `AbstractModel` | registry.dfy | `new`/`initialize`, `all`, `reset`, `to_param`, `param_key` |
| `Polymorphic` | polymorphic.dfy | `polymorphic_parents`, `reset_polymorphic_parents` |
| `StatementBuilder` | statement.dfy | `to_statement`, the generic type fallback, the numeric builder |
| `FilteringDuration` | duration.dfy | `get_duration` and its branches |
| `FilterInput` | filter_input.dfy | the filter value: `value[i]`, `Array.wrap(value).first`, `present?` |
| `Calendar` | calendar.dfy | day numbers, Monday-based weeks, beginning and end of day |
| `RubyInteger` | ruby_integer.dfy | `String#to_i`, `Integer#to_s` |
| `Text` | text.dfy | `String#split`, `Array#join`, ActiveSupport's `underscore` |
| `Wrappers` | wrappers.dfy | `Option`, `Result` |

Some things come from outside the code, and the model takes each one as a
parameter:

- **The application.** An `Env` holds the configured model names and
  `constantize`. `constantize` is a function from a name to class facts, or
  to nothing where Ruby raises LoadError or NameError.
- **The class variables.** A `Registry` value holds them. `All` and
  `PolymorphicParents` take a registry and return an updated one.
- **The clock and date parsing.** A `Clock` holds today's date and
  `Date.strptime` with the filter date format, as a partial function.
- **Float text.** A `FloatSyntax` holds `to_f` and `Float#to_s`.
- **The backend hooks.** A `Backend<P>` record holds `unary_operators`,
  `build_statement_for_type`, `range_filter` and `column_for_value`. `P` is
  the backend's predicate type.

`to_i` and `to_s` on integers, `split`, `join` and `underscore` are modelled
concretely.

Three behaviours of the code are worth stating plainly, because a reader
might expect otherwise:

- A polymorphic lookup of a key no association contributes to gives nil,
  not an empty list; `Polymorphic.Lookup` returns `None`.
- Only the default duration branch rescues a parse failure. A present but
  unparsable `value[1]` or `value[2]` under `between` raises, and
  `GetDuration` returns `Failure(InvalidDate(..))`, which `ToStatement`
  passes on.
- `all` only `compact`s: a name listed twice gives two entries, and the
  models keep pool order (`ResolvePoolAppend`).

## Model

| member | source | states |
|---|---|---|
| `AbstractModel.New` | lib/rails_admin/abstract_model.rb:17-23 | a model exists only if the name resolves; the model is named after the class's own name, that name resolves again, and the adapter is the one `initialize` picks for that class |
| `AbstractModel.AdapterChoice` | lib/rails_admin/abstract_model.rb:44-52 | a concrete ActiveRecord descendant is ActiveRecord, even when it is also a Mongoid document; an abstract ActiveRecord class falls through to the Mongoid test; any other class gives no model |
| `AbstractModel.ResolvePool` | lib/rails_admin/abstract_model.rb:12 | the pool's models are exactly the results of `new` on the pool's names that resolve, and there are no more of them than names |
| `AbstractModel.ResolvePoolAppend` | lib/rails_admin/abstract_model.rb:12 | resolving a pool is resolving its parts and concatenating, so the surviving models keep pool order and multiplicity |
| `AbstractModel.ResolvePoolOne` | lib/rails_admin/abstract_model.rb:12 | a single name gives its model, or nothing when `new` gives nil |
| `AbstractModel.ResolvePoolKeepsEveryName` | lib/rails_admin/abstract_model.rb:12 | when every name resolves, entry i is the model of name i, so nothing is deduplicated |
| `AbstractModel.SelectAdapter` | lib/rails_admin/abstract_model.rb:13 | the adapter view keeps cache order and holds exactly the cached models of that adapter |
| `AbstractModel.AdapterViewsPartition` | lib/rails_admin/abstract_model.rb:13 | the ActiveRecord and Mongoid views together account for every cached model exactly once |
| `AbstractModel.All` | lib/rails_admin/abstract_model.rb:11-14 | an empty cache is filled from the pool and a full one is left alone; the polymorphic indexes are untouched; the answer is the whole cache without an adapter, and exactly `SelectAdapter` of the cache with one |
| `AbstractModel.AllViewsPartition` | lib/rails_admin/abstract_model.rb:13 | the ActiveRecord and Mongoid answers of `all` together have as many models as the unfiltered answer |
| `AbstractModel.AllIsMemoised` | lib/rails_admin/abstract_model.rb:12 | once the cache is filled, later calls change nothing and return the same list, even with a different configuration |
| `AbstractModel.Reset` | lib/rails_admin/abstract_model.rb:7-9 | `reset` empties the model cache and keeps the polymorphic indexes |
| `AbstractModel.ResetRecomputes` | lib/rails_admin/abstract_model.rb:7-14 | after `reset`, `all` is recomputed from the current configuration |
| `AbstractModel.ToParamDecodes` | lib/rails_admin/abstract_model.rb:67-69 | splitting `to_param` on '~' gives back the underscored `::` parts of a name without '~' |
| `AbstractModel.ParamKeyIsToParamWithUnderscores` | lib/rails_admin/abstract_model.rb:67-73 | `param_key` is `to_param` with every '~' replaced by '_' |
| `AbstractModel.NamesOfOne` | lib/rails_admin/abstract_model.rb:67-73 | a name with no ':' has `to_param` and `param_key` both equal to its underscored form |
| `AbstractModel.NamesOfTwo` | lib/rails_admin/abstract_model.rb:67-73 | "X::Y" has `to_param` "x~y" and `param_key` "x_y", in underscored form |
| `AbstractModel.ParamKeyCollision` | lib/rails_admin/abstract_model.rb:71-73 | "Foo::Bar" and "FooBar" have the same `param_key`, "foo_bar", but their `to_param` values differ, for any two capitalised words |
| `Text.JoinSplit` | lib/rails_admin/abstract_model.rb:68 | joining the fields of the untrimmed field scan `SplitOn` (the fields before `split` drops trailing empty ones) with the same separator gives back the string |
| `Text.SplitJoin` | lib/rails_admin/abstract_model.rb:68 | splitting a join of separator-free fields on a one-character separator gives back the fields |
| `Text.UnderscoreIsLowerCase` | lib/rails_admin/abstract_model.rb:68 | an underscored name has no upper-case letter and no '-' |
| `Text.UnderscoreCamelPair` | lib/rails_admin/abstract_model.rb:31 | two capitalised words run together, such as "BlogPost", become "blog_post" |
| `Polymorphic.BuildIndexIsOwners` | lib/rails_admin/abstract_model.rb:28-34 | a key is in the built index exactly when some association contributes to it; its bucket lists the owners in model order and association order, once per association |
| `Polymorphic.PolymorphicParents` | lib/rails_admin/abstract_model.rb:27-36 | the adapter's index exists afterwards, other adapters' indexes are untouched, an existing index is reused unchanged, a missing one is built from `all(adapter)` (which also fills the model cache), and the answer is the lookup in that index |
| `Polymorphic.FirstQueryAnswersFromModels` | lib/rails_admin/abstract_model.rb:27-36 | the first query for an adapter is nil when no association contributes to the key; otherwise it lists the owners among that adapter's models |
| `Polymorphic.IndexBuiltOnce` | lib/rails_admin/abstract_model.rb:28 | once built, later queries change nothing and read the stored index whatever the configuration, and the same query gives the same answer |
| `Polymorphic.KeysCollide` | lib/rails_admin/abstract_model.rb:31-35 | target "Blog" with `as` name "post_comments" shares a bucket with target "BlogPost" and `as` name "comments", for any two capitalised words |
| `Polymorphic.ResetPolymorphicParents` | lib/rails_admin/abstract_model.rb:39-41 | every index is forgotten and the model cache is kept |
| `StatementBuilder.ToStatement` | lib/rails_admin/abstract_model.rb:120-125 | the sentinel gives nothing; past the sentinel and the unary table, a type-builder answer is returned as is; a date-like column the type builder declined fails exactly when its duration fails, and only `between` durations fail |
| `StatementBuilder.UnaryPrecedence` | lib/rails_admin/abstract_model.rb:123 | without the sentinel, the operator's unary entry decides, then the value's, whatever the column type, clock and other hooks |
| `StatementBuilder.TypeDispatchOnlyWithoutUnary` | lib/rails_admin/abstract_model.rb:121-124 | two backends with the same unary table can disagree only on a filter that is neither the sentinel nor a unary keyword |
| `StatementBuilder.DateFallback` | lib/rails_admin/abstract_model.rb:167-168 | a declined date column gets the range filter over the duration's two dates, with `false` ends passed on as `false` |
| `StatementBuilder.DatetimeFallback` | lib/rails_admin/abstract_model.rb:171-176 | a declined datetime or timestamp column gets the range filter from the beginning of the start day to the end of the end day; a `false` end is passed as `false`; a failed duration fails |
| `StatementBuilder.DatetimeOneSidedBetween` | lib/rails_admin/abstract_model.rb:171-176 | a datetime `between` with a blank upper end is the range from the beginning of the lower day to `false` |
| `StatementBuilder.DatetimeCoversWholeDays` | lib/rails_admin/abstract_model.rb:171-176 | a declined datetime or timestamp column over days a to z gets the range from the beginning of day a to the end of day z, which holds exactly the instants on days a to z |
| `StatementBuilder.OtherTypesProduceNothing` | lib/rails_admin/abstract_model.rb:133-140 | a declined column that is not date-like gives nothing |
| `StatementBuilder.NumericArg` | lib/rails_admin/abstract_model.rb:150-151 | a string gives a number exactly when it passes the integer or the float round trip; the number is `to_i` of the string for integer columns and `to_f` of it for every other column |
| `StatementBuilder.BuildStatementForIntegerDecimalOrFloat` | lib/rails_admin/abstract_model.rb:146-165 | a scalar that is a numeral reaches `column_for_value` as its number for the column's type, and any other scalar gives nothing; a non-`between` array whose first element is missing or not a numeral gives nothing |
| `StatementBuilder.IntegerScalarIsExact` | lib/rails_admin/abstract_model.rb:161-162 | on an integer column, a canonical decimal reaches the backend as the integer it spells; anything else that fails the float round trip is dropped |
| `StatementBuilder.IntegerColumnTruncatesFloatText` | lib/rails_admin/abstract_model.rb:161-162 | on an integer column, "1.5" that passes as a float print filters by 1 |
| `StatementBuilder.NumericArrayOperands` | lib/rails_admin/abstract_model.rb:148-159 | `between` passes elements 1 and 2 (nil if missing) to the range filter; any other operator passes element 0 |
| `RubyInteger.RoundTripIffCanonical` | lib/rails_admin/abstract_model.rb:150 | `v.to_i.to_s == v` holds exactly for "0" and for optionally negative digit strings with no leading zero |
| `RubyInteger.ToIOfIntToS` | lib/rails_admin/abstract_model.rb:150 | `to_i` reads back every integer `to_s` prints |
| `FilteringDuration.GetDuration` | lib/rails_admin/abstract_model.rb:192-201 | only `between` can fail; every operator except `between`, `this_week` and `last_week` gives a single day |
| `FilteringDuration.TodayAndYesterday` | lib/rails_admin/abstract_model.rb:203-209 | `today` and `yesterday` are the single days today and today - 1 |
| `FilteringDuration.ThisWeek` | lib/rails_admin/abstract_model.rb:211-213 | `this_week` runs Monday to Sunday, contains today, and is the same for every day of the week |
| `FilteringDuration.LastWeek` | lib/rails_admin/abstract_model.rb:215-218 | `last_week` is `this_week` moved back seven days |
| `FilteringDuration.BetweenOutcome` | lib/rails_admin/abstract_model.rb:220-222 | `between` fails exactly when a present `value[1]` or `value[2]` does not parse; otherwise it gives those two dates in order |
| `FilteringDuration.BetweenKeepsOrder` | lib/rails_admin/abstract_model.rb:221 | swapping the two bounds of the value swaps the bounds of the duration |
| `FilteringDuration.BetweenReadsSecondAndThird` | lib/rails_admin/abstract_model.rb:221 | `between` depends only on `value[1]` and `value[2]` |
| `FilteringDuration.DefaultOutcome` | lib/rails_admin/abstract_model.rb:224-242 | any other operator gives the single day of the first element, and `[false, false]` exactly when that element is missing, blank or not a date |
| `FilteringDuration.DefaultReadsFirstOnly` | lib/rails_admin/abstract_model.rb:240 | the default branch ignores every array element but the first |
| `FilteringDuration.BetweenOfTwoCharacterScalar` | lib/rails_admin/abstract_model.rb:220-222 | a `between` filter whose value is one two-character string takes its start date from the second character alone and has no end date |
| `FilterInput.AtZeroVersusFirst` | lib/rails_admin/abstract_model.rb:221 | `value[0]` and `Array.wrap(value).first` agree on a non-empty array, but on a string of two or more characters the first is one character and the second the whole string |
| `Calendar.WholeDays` | lib/rails_admin/abstract_model.rb:173-174 | the instants from the beginning of day a to the end of day b are exactly those falling on days a to b |
| `Calendar.SameWeek` | lib/rails_admin/abstract_model.rb:212 | every day of a week has the same beginning and end of week |

## Left out

- Class loading is abstracted. `constantize`, ancestry and `abstract_class?` are the oracle `Env.constantize`.
- The `LoadError`/`NameError` rescue in `new` becomes `None`. Its `puts` diagnostic is output and is not modelled.
- A class object given to `new` instead of a name (the `is_a?(Class)` case) is not modelled; the pool is a list of names.
- `Polymorphic.AssociationsOf`: a class that no longer resolves while the index is built yields no associations, where the source would raise NameError. This state arises only when the application's classes change after `all` was cached; the source then raises and stores no index, where the model stores one without that model's associations.
- `Date.strptime` with the localized filter date format, I18n lookup and `Date.today` are abstracted. The first two are `Clock.strptime`; today is `Clock.today`.
- `FilteringDuration.TodayAndYesterday`: `Date.yesterday` (which reads the Rails time zone) is taken as `Date.today` minus one day. `1.week.ago.to_date` is taken as today minus seven days. Time zones are not modelled.
- Weeks start on Monday, the Rails default; a configured `beginning_of_week` is not modelled.
- `Calendar.WholeDays`: days are taken as 86400 seconds in UTC. Daylight-saving transitions and the time zone of `to_time` are not modelled.
- Float parsing and printing (`to_f`, `Float#to_s`) are abstract functions. Only the round-trip test built on them is modelled.
- `String#to_i` is modelled on ASCII digits. It leaves out the underscores Ruby allows between digits (as in "1_000") and the "0d" prefix MRI skips after the sign (as in "0d12"). Such strings fail the round trip either way, because `to_s` prints neither.
- `present?` and `underscore` treat only ASCII as white space, letters and case; Unicode is not modelled.
- `underscore` has no acronym inflections.
- The backend overrides are fields of `Backend<P>`, not code: `build_statement_for_type`, `unary_operators`, `range_filter` and `column_for_value`. The `fail` stubs that stand in for them in the base class are not modelled.
- The `extend Adapters::*` mixins and the `require` calls are not modelled; an adapter is only a tag.
- `each_associated_children` is database fetching and is not modelled.
- `where`, `pretty_name`, `config`, `to_s` and `model` are thin Rails wrappers and are not modelled.
- A nil operator or a nil filter value is not modelled; the operator is a string and the value a string or an array of strings.
- Symbols (`to_sym`) are modelled as the strings they are made from.
- The class variables are shared by all threads in the source; the model threads one `Registry` value and has no concurrency.
