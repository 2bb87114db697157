# ancestry: `has_ancestry` configuration and record-level scopes

The ancestry library lets the rows of one table form a tree: each row stores
the ids of its ancestors in a single ancestry column. `has_ancestry` is the
entry point a model calls to become a tree. This project models what that
entry point decides on its own:

- **Option checking and defaults** (`options.dfy`, module `Options`). The
  argument must be a Hash, and every key must be one of `:ancestry_column`,
  `:orphan_strategy`, `:cache_depth` or `:depth_cache_column`. The first
  unknown key, in the Hash's insertion order, raises. An absent option, or
  one given as `nil` or `false` (Ruby's `||`), takes its default:
  `:ancestry`, `:destroy`, and `:ancestry_depth`. The depth cache column
  exists only when `:cache_depth` is truthy. The class-level accessors
  become one `Config` value. `HasAncestry` is the imperative walk over the
  options, proved equal to the function `ParseOptions`.
- **Record-level scopes** (`scopes.dfy`, module `Scopes`). A stored record
  is a map from SQL column names to values. A column option given as a
  Symbol or as a String names the column with that text, so
  `ancestry_column: :tree` and `ancestry_column: "tree"` read the same
  column. A scope's SQL condition is a predicate on records, and running a
  query is `Select` over a sequence of records. `Select` is specified by multiplicities, so it is a multiset
  filter, as an unordered SQL result is.
  - `roots` selects the records whose ancestry column is NULL.
  - The five depth scopes dispatch statically on an enum to `<`, `<=`, `=`,
    `>=` and `>`. Each compares the depth cache column with the argument.
    Each raises when depth caching is off.
  - The depth cache validation requires a non-NULL integer that is at
    least 0.
  - `ordered_by_ancestry` puts NULL-ancestry records first and orders the
    rest by their ancestry string. It is modelled as a sort (insertion
    sort), proved to return a permutation of the records in that order.
- **Ruby values** (`ruby_values.dfy`, module `RubyValues`). These are the
  values that reach `has_ancestry`: nil, booleans, integers, strings,
  symbols and insertion-ordered hashes. The module also gives Ruby
  truthiness, `||` and `Hash#[]` for a Hash without a default value.

An empty-string ancestry is not a root: `roots` tests only for NULL
(`ancestry_column => nil`, line 36).

## Model

| member | source | states |
|---|---|---|
| `Options.FirstUnknown` | lib/ancestry/has_ancestry.rb:5-9 | the position found is the first entry whose key is not one of the four option names: every earlier key is known, and the key there is not |
| `Options.Configure` | lib/ancestry/has_ancestry.rb:19-55 | the configured ancestry column and orphan strategy are never nil or false, and each is the supplied value whenever that is truthy; a depth cache column exists exactly when `cache_depth` is truthy, and is then never nil or false |
| `Options.ParseOptions` | lib/ancestry/has_ancestry.rb:4-27 | a configuration is produced exactly when the argument is a Hash all of whose keys are known option names; a non-Hash argument raises "option must be hash"; the base class is the calling model |
| `Options.HasAncestry` | lib/ancestry/has_ancestry.rb:2-55 | the loop over the options, with the assignments that follow it, produces the same error or configuration as `ParseOptions` |
| `Options.UnknownOptionReported` | lib/ancestry/has_ancestry.rb:5-9 | a Hash that is rejected is rejected with "unknown option", naming the key and value of its first entry with an unknown key |
| `Options.DefaultsWhenAbsent` | lib/ancestry/has_ancestry.rb:19-23 | an absent, nil or false `ancestry_column` / `orphan_strategy` yields `:ancestry` / `:destroy` |
| `Options.GivenValuesKept` | lib/ancestry/has_ancestry.rb:19-23 | a truthy `ancestry_column` / `orphan_strategy` value is used unchanged |
| `Options.DepthCacheColumnRule` | lib/ancestry/has_ancestry.rb:52-55 | the depth cache column exists if and only if `cache_depth` is truthy; it is the given `depth_cache_column` when truthy, else `:ancestry_depth` |
| `Options.NoOptionsGiveDefaults` | lib/ancestry/has_ancestry.rb:2-23 | `has_ancestry` with the default empty Hash gives column `:ancestry`, strategy `:destroy` and no depth cache |
| `Scopes.Roots` | lib/ancestry/has_ancestry.rb:36 | `roots` returns every record whose ancestry column is NULL, as often as it is stored, and no other record |
| `Scopes.DepthScope` | lib/ancestry/has_ancestry.rb:65-72 | without depth caching the scope raises "named scope depth cache" naming the scope; with it, `before_depth`/`to_depth`/`at_depth`/`from_depth`/`after_depth` hold of a record exactly when its cached depth is an integer `<`/`<=`/`=`/`>=`/`>` the argument |
| `Scopes.DepthQuery` | lib/ancestry/has_ancestry.rb:66-71 | running a depth scope raises, naming the scope, exactly when depth caching is off; otherwise it returns only stored rows with an integer depth, each row the scope accepts as often as it is stored and no other |
| `Scopes.DepthCacheValid` | lib/ancestry/has_ancestry.rb:61 | with depth caching off every record passes; with it on, a record passes exactly when `from_depth(0)` selects it (an integer depth of at least 0), so a NULL depth fails |
| `Scopes.SymbolAndStringNameSameColumn` | lib/ancestry/has_ancestry.rb:36-71 | a column option given as `:name` and as `"name"` reads the same cell of every row |
| `Scopes.StringColumnNameRoots` | lib/ancestry/has_ancestry.rb:36 | with `ancestry_column: "tree"`, `roots` leaves out a record whose `tree` column holds an ancestry and returns one whose `tree` is NULL |
| `Scopes.DepthScopesNeedCache` | lib/ancestry/has_ancestry.rb:66-70 | with depth caching off, running any depth scope raises, for every depth argument |
| `Scopes.ToDepthIsBeforeOrAt` | lib/ancestry/has_ancestry.rb:65-71 | `to_depth(n)` returns exactly the records of `before_depth(n)` together with those of `at_depth(n)` |
| `Scopes.FromDepthIsAtOrAfter` | lib/ancestry/has_ancestry.rb:65-71 | `from_depth(n)` returns exactly the records of `at_depth(n)` together with those of `after_depth(n)` |
| `Scopes.DepthScopesPartition` | lib/ancestry/has_ancestry.rb:61-71 | over records that pass the depth cache validation, `before_depth(n)`, `at_depth(n)` and `after_depth(n)` together return every record exactly once |
| `Scopes.ValidDepthsFromZero` | lib/ancestry/has_ancestry.rb:61-71 | over records that pass the depth cache validation (integer, not nil, at least 0), `from_depth(0)` returns all of them in order and `before_depth(0)` none |
| `Scopes.OrderedByAncestry` | lib/ancestry/has_ancestry.rb:42 | the result is a permutation of the records; every NULL-ancestry record precedes every other; the others are in ascending ancestry-string order |
| `Scopes.RootsComeFirst` | lib/ancestry/has_ancestry.rb:36-42 | the records `ordered_by_ancestry` returns begin with exactly the records `roots` returns, and all records after them have an ancestry |
| `Scopes.TextLeTotal` | lib/ancestry/has_ancestry.rb:42 | any two ancestry strings are comparable in the order the scope sorts by |
| `Scopes.TextLeTransitive` | lib/ancestry/has_ancestry.rb:42 | that string order is transitive |
| `Scopes.TextLeAntisymmetric` | lib/ancestry/has_ancestry.rb:42 | two strings each ordered before the other are equal |

## Left out

- ActiveRecord wiring: `include`/`extend` of the instance and class methods, the `cattr_accessor`/`cattr_reader` declarations, and the registration of scopes, validations and callbacks (lines 11-15, 18, 22, 26, 30, 33, 36-49, 58). The configuration is an explicit `Config` value instead.
- `base_class = self` (line 27) becomes the `baseClass` parameter. Single-table inheritance is not modelled.
- The format validation of the ancestry column (line 30): `Ancestry::ANCESTRY_PATTERN` is not part of this model.
- `ancestry_exclude_self`, `to_node`, the `*_conditions` builders behind `ancestors_of`, `children_of`, `descendants_of`, `subtree_of` and `siblings_of`, `update_descendants_with_new_ancestry`, `apply_orphan_strategy` and `cache_depth` (lines 33, 37-41, 46, 49, 58): their bodies are in files that are not part of this model.
- The orphan strategy writer and any check of the strategy value (line 23): the writer lives in the dynamic class methods, which are not part of this model. Any truthy value is accepted.
- `ordered_by_ancestry_and` (line 43): its extra ordering is caller-supplied SQL text.
- The `acts_as_tree` alias (lines 77-79), the I18n message lookup and the text of the exception messages. Errors are datatype constructors that carry the same key, value or scope name.
- The loop at line 65 that registers one scope per table entry. It is replaced by static dispatch on `DepthScopeName` (`Operator`), which yields the same name-to-operator table.
- SQL text generation. Conditions are predicates over records, and ordering is a sort over a sequence.
- DepthScope: the depth argument is an integer. Ruby would bind any value into the SQL condition, and the SQL coercion rules are not modelled.
- DepthScope: the closure consults the options Hash when the scope is called. A caller that mutates that Hash after `has_ancestry` could change the outcome. The model reads the configuration fixed at `has_ancestry` time.
- Scopes.DepthCacheValid: Rails' numericality validation also accepts strings that spell an integer. Only integer values are modelled, so only they pass.
- Hash default values and default procs (`Hash.new(true)`): only Hashes without a default are modelled, so an absent option always reads as `nil`. With a truthy default, `options[:cache_depth]` (lines 52 and 70) would be truthy with the key absent; the model cannot express that.
- Scopes.Cell: a column option that is neither a Symbol nor a String (an Integer, say) names no column here and reads as NULL; Rails would interpolate its `to_s`.
- A record that lacks a configured column reads as NULL. A real table missing the column would make the query fail.
- String comparison in `ordered_by_ancestry` uses binary (character-code) order. Database collations are not modelled. Records with equal ancestry may come in any order, as in SQL.
