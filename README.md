# vestal_versions: version-history queries, modelled in Dafny

This project models the query layer that vestal_versions adds to a versioned
record's `versions` association, and the navigation predicates of a versioned
record:

- `at(value)` resolves an identifier to one version entry and
  `iteration_at(value)` resolves it to an iteration number. The identifier may
  be a time, a number, a tag (String), a named association query (Symbol) or a
  Version record. Any other value resolves to nil.
- `between(from, to)`, `before(value)` and `after(value)` are range queries
  built on `iteration_at`. They return `[]` when an endpoint does not resolve.
- `has_previous_version?`, `has_next_version?` and `lastest_version?` compare
  the record's `version` with the minimum and maximum stored iteration.
- `versioned?` is a class flag. It is false until the class calls `versioned`.

Files:

- `wrappers.dfy` holds `Option`, which stands for Ruby's nil-or-object results.
- `version_store.dfy` (module `VersionStore`) models the association. A
  subject's history is a `seq<Entry>` in the association's default order,
  `iteration ASC`. `Ordered(h)` says iterations strictly ascend. `UniqueTags(h)`
  says no tag appears twice. The finders (`find_by_iteration`, `find_by_tag`,
  `last` with a `created_at` condition) and `all(:conditions => …)` are
  functions over that sequence.
- `versions.dfy` (module `Versions`) models `lib/vestal_versions/versions.rb`.
- `versioned.dfy` (module `Versioned`) models `lib/vestal_versions/versioned.rb`.

Functions over a history take any sequence. Properties that depend on the
association's default order take `Ordered(h)` as a hypothesis. This holds for
every history the association returns, because iterations are unique per
subject and the default scope sorts by them.

The model follows the code as written in three places where the names or
the usual expectations suggest otherwise:

- `has_previous_version?` is `version > minimum - 1`, which is `version >= minimum`.
  It is therefore TRUE at the first entry, and true for a record with a single
  entry, although the name suggests false there.
- On an empty history, `minimum`/`maximum` are nil and the navigation
  predicates raise (`nil - 1`, a comparison with nil). The navigation
  functions therefore require `h != []`.
- For a time, the code takes `last` in the default order `iteration ASC`. So
  among entries created at or before the time, the one with the highest
  iteration wins, and ties on `created_at` are settled that way.

## Model

| member | source | states |
|---|---|---|
| `VersionStore.Where` | lib/vestal_versions/versions.rb:16-19 | `all(:conditions => c)` returns exactly the stored entries meeting the iteration condition (an exact value, an inclusive span, `<` or `>`), in default order; an ordered history gives an ordered result |
| `VersionStore.Reverse` | lib/vestal_versions/versions.rb:18 | the `DESC` order: same entries, position `i` holding the entry at `n-1-i` |
| `VersionStore.FindByIteration` | lib/vestal_versions/versions.rb:53 | finds a stored entry with that exact iteration, and finds none exactly when none is stored |
| `VersionStore.FindByTag` | lib/vestal_versions/versions.rb:54 | finds a stored entry whose tag is exactly the string, and finds none exactly when no entry carries it |
| `VersionStore.LastCreatedAtOrBefore` | lib/vestal_versions/versions.rb:52 | finds an entry created at or before `t`, none exactly when every entry is later, and on an ordered history one whose iteration is at least that of every qualifying entry |
| `VersionStore.FindByIterationFinds` | lib/vestal_versions/versions.rb:53 | on an ordered history, any stored entry is what a lookup of its iteration returns |
| `VersionStore.FindByTagFinds` | lib/vestal_versions/versions.rb:54 | with unique tags, any tagged entry is what a lookup of its tag returns |
| `VersionStore.LastCreatedAtOrBeforeIsLatest` | lib/vestal_versions/versions.rb:52 | on an ordered history, the time lookup returns the qualifying entry of highest iteration, whichever it is |
| `Versions.At` | lib/vestal_versions/versions.rb:50-58 | time: an entry created at or before the time (on an ordered history, the qualifying entry of highest iteration), or nil when none qualifies; number: the stored entry at the floor or nil; string: the entry with that tag or nil; symbol: the named query's answer; Version: itself; anything else: nil |
| `Versions.IterationAt` | lib/vestal_versions/versions.rb:65-72 | agrees with `at` whenever `at` finds an entry; a number gives its floor with no lookup; an unmatched time gives 1; nil exactly for other kinds of value and for unmatched tags and symbols |
| `Versions.Between` | lib/vestal_versions/versions.rb:11-20 | `[]` when either endpoint is nil; otherwise exactly the stored entries in the inclusive span between the endpoints; on an ordered history ascending when `from <= to` and descending otherwise |
| `Versions.Before` | lib/vestal_versions/versions.rb:23-26 | `[]` when the value does not resolve; otherwise exactly the entries with a smaller iteration, in default order |
| `Versions.After` | lib/vestal_versions/versions.rb:31-34 | `[]` when the value does not resolve; otherwise exactly the entries with a greater iteration, in default order |
| `Versions.ReversedOrderedIsDescending` | lib/vestal_versions/versions.rb:18 | reversing a history in default order gives one strictly descending by iteration |
| `Versions.AtNumberFindsEntry` | lib/vestal_versions/versions.rb:53 | a number whose floor is a stored iteration resolves to that entry and to that iteration |
| `Versions.AtTimeFindsLatest` | lib/vestal_versions/versions.rb:52 | a time resolves to the qualifying entry of highest iteration, and `iteration_at` gives its iteration |
| `Versions.TimeBeforeHistory` | lib/vestal_versions/versions.rb:67 | a time before every entry resolves to no entry but to iteration 1 |
| `Versions.AtTagFindsEntry` | lib/vestal_versions/versions.rb:54 | with unique tags, a tag resolves to the entry carrying it and to that entry's iteration |
| `Versions.AtIterationRoundTrip` | lib/vestal_versions/versions.rb:65-72 | for any identifier that `at` resolves to a stored entry, looking up `iteration_at` as a number gives the same entry back |
| `Versions.BetweenSameIteration` | lib/vestal_versions/versions.rb:15 | with equal endpoints `between` gives exactly the entry at that iteration, or `[]` when none is stored |
| `Versions.BetweenSwapReverses` | lib/vestal_versions/versions.rb:15-18 | `between(to, from)` is the reverse of `between(from, to)`, for every pair of identifiers |
| `Versions.BeforeAtAfterPartition` | lib/vestal_versions/versions.rb:23-34 | for a value whose iteration is stored, `before(x) + [at(iteration_at(x))] + after(x)` is the whole history in default order, and the three parts are disjoint |
| `Versions.ThreeEntriesBetween` | lib/vestal_versions/versions.rb:11-20 | on iterations 1..3 with iteration 2 tagged "v2", `between("v2", 3)` is `[2, 3]` and `between(3, "v2")` is `[3, 2]` |
| `Versions.ThreeEntriesBeforeAfter` | lib/vestal_versions/versions.rb:23-34 | on the same history `before(3)` is `[1, 2]` and `after(1)` is `[2, 3]` |
| `Versions.ThreeEntriesResolution` | lib/vestal_versions/versions.rb:50-72 | on the same history 2.9 resolves to iteration 2, an unknown tag to nil in both resolvers, a time before the history to no entry but iteration 1, and a time between entries to the earlier one |
| `Versioned.ModelClass.constructor` | lib/vestal_versions/versioned.rb:19-23 | a class that has not called `versioned` answers false to `versioned?` |
| `Versioned.ModelClass.Versioned` | lib/vestal_versions/versioned.rb:9-17 | after `versioned`, `versioned?` answers true |
| `Versioned.ModelClass.IsVersioned` | lib/vestal_versions/versioned.rb:13-23 | `versioned?` answers the class flag: false until `versioned` is called (lines 21-23), true after it (lines 13-15) |
| `Versioned.MinIteration` | lib/vestal_versions/versioned.rb:28 | `minimum(:iteration)` is a stored iteration no larger than any other |
| `Versioned.MaxIteration` | lib/vestal_versions/versioned.rb:32 | `maximum(:iteration)` is a stored iteration no smaller than any other |
| `Versioned.HasPreviousVersion` | lib/vestal_versions/versioned.rb:27-29 | holds iff some stored iteration is at or below `version`, the current one included |
| `Versioned.HasNextVersion` | lib/vestal_versions/versioned.rb:31-33 | holds iff some stored iteration is above `version` |
| `Versioned.LatestVersion` | lib/vestal_versions/versioned.rb:35-37 | holds iff no stored iteration is above `version` |
| `Versioned.PreviousFromFirstEntry` | lib/vestal_versions/versioned.rb:27-29 | on an ordered history, `has_previous_version?` holds iff `version` is at least the first iteration, so it holds at the first entry |
| `Versioned.NextUntilLastEntry` | lib/vestal_versions/versioned.rb:31-37 | on an ordered history, `has_next_version?` holds iff `version` is below the last iteration and `lastest_version?` iff it is not; at the maximum stored iteration the record is latest |
| `Versioned.SingleEntryNavigation` | lib/vestal_versions/versioned.rb:27-37 | a record at its only entry has no next version, is latest, and has a previous version as written |

## Left out

- ActiveRecord plumbing is not modelled: SQL condition strings, table-name quoting and the finders' SQL. The finders and `all` are filters over the in-memory history. `ORDER BY iteration DESC` is the reverse of the default ascending order. That equals a database sort when the history is in its default order (`Ordered`).
- Symbol dispatch through `respond_to?`/`send` is open-ended metaprogramming. It is replaced by a parameter `named: string -> Option<Entry>`. An unsupported name maps to `None`.
- `Date`/`Time#to_time` conversion is not modelled. Times are integer timestamps.
- Ruby's `Float` rounding is not modelled. Numbers are exact `real`s, and `Floor` rounds toward negative infinity as Ruby's `floor` does.
- Non-finite Floats (NaN, Infinity, -Infinity) have no counterpart in `Num(real)`. On them `floor` raises `FloatDomainError` in both `at` (versions.rb:53) and `iteration_at` (versions.rb:68), instead of resolving.
- `Version#==`, `Version#<=>` and `Version#initial?` are not part of this model, because their implementation is not among the modelled files. `Entry` carries a subject id, so entries of different subjects are never equal as values.
- `ActiveSupport::Concern` and the singleton-class redefinition behind `versioned?` are not modelled. Only the resulting flag is kept. The rest of the `versioned` declaration (`super(*args)`) is not part of this model.
- HasPreviousVersion, HasNextVersion and LatestVersion require a non-empty history. On an empty history the source raises on `nil - 1` or a comparison with nil.
- Version creation, diffs, reverting (`reset_to!`) and the storage layer are not part of this model.
- Concurrent writes between the two `iteration_at` calls of `between` are not modelled. Each query sees one fixed history.
