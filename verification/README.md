# plex-postgresql in Dafny

plex-postgresql is a shim that lets Plex Media Server, written for SQLite, run
on PostgreSQL.  It translates statements, keeps prepared statements and
connections alive across threads, follows SQLite's transactions on a server
whose transactions fail differently, and hands values back through buffers of
its own.  Two Python scripts move tables between the databases as COPY text.

This project models the parts of the shim whose correctness spans several
functions or a whole run, and proves them for every input, every history or
every interleaving.  `dafny verify dfyconfig.toml` checks all of it.

| files | what they model |
|---|---|
| `SqlAst`, `SqliteParams`, `Numbering`, `Dedup`, `Placeholders`, `Parameters`, `UpdateMeaning`, `Translation` | an UPDATE with repeated columns through the `dedup` and `placeholders` passes, against SQLite's parameter numbering and three-valued WHERE |
| `QuestionMarks`, `SqlPieces`, `ShadowStatement` | the placeholder counter, on statements as they are written, and the statement SQLite is given in place of a translated one |
| `AliasExpand` | projection aliases expanded in HAVING |
| `StmtCache`, `StmtCacheMap` | the prepared-statement cache: an open-addressing table of 512 slots with eviction, and the map it is |
| `ConnRefs`, `ConnPointers` | reference counts of pooled connections, as atomic steps of many threads and as one thread's setters |
| `PgSession`, `SqliteTxn`, `NestedTxn`, `TxnPlan`, `GuideLoad`, `IdSequence`, `GuideIds` | transactions and savepoints of the two servers, the nesting the shim's plan intends, the plan, guide-load writes in savepoints, the id sequence, and both in one machine |
| `SplitTopLevel` | a SET list cut at its top-level commas |
| `Utf8`, `ReplaceIcase`, `FtsSimplify`, `JsonPath`, `JsonSpelling` | rewriters that walk UTF-8 text byte by byte, and the grammar of JSON paths |
| `CopyText` | rows to COPY text and back |
| `ValueRing` | the ring of buffers values are handed out from |
| `TranslateCache` | the translation cache and the flag it does not see |
| `Calendar` | the logger's date arithmetic |

The main results, each for all inputs:

- For every UPDATE and every parameter token SQLite accepts, PostgreSQL accepts
  the translation and reads each parameter at SQLite's slot if and only if no
  name but a `$NNN` stands under two sigils, every parameter is in place, and
  SQLite's last slot is held by a parameter the shim keeps a place for
  (`Translation.TranslationIsExact`).  Then, whatever list of values the caller
  binds, the PostgreSQL statement selects the rows, writes the row and returns
  the values SQLite would (`Translation.TranslationIsFaithful`), and where
  evaluating can fail it fails only where SQLite's would
  (`Translation.TranslationFails`).
- Every run of the statement cache is a run of a plain map
  (`StmtCacheMap.CacheIsAMap`), nothing it accepts is lost without a report
  (`StmtCacheMap.AddedIsFoundOrReported`), and every name stored is held,
  reported or overwritten (`StmtCache.RunConserves`).
- In every interleaving the reference count is the number of holders, and a
  connection is freed exactly once (`ConnRefs.CountsAreExact`,
  `FreedExactlyOnce`).
- Over every run of transaction control and of writes accepted or refused in
  any pattern, the shim on PostgreSQL stands where SQLite stands if and only if
  no BEGIN is issued inside a transaction (`GuideLoad.RunIsSqlites`); without
  the statement savepoints, if and only if moreover no write is refused inside
  one (`GuideLoad.UnbracketedRun`).  All such runs over a set of savepoint names
  show what SQLite shows if and only if no two names are one to PostgreSQL,
  which folds case and cuts a name at 63 bytes (`GuideLoad.NamesExact`).  Over
  every run on a new table in which the resyncs are accepted, the id the next
  insert takes is above every id present (`GuideIds.LoadsNextId`).
- A path is parsed as a list of segments if and only if it is a spelling of
  them: dotted, bracketed or quoted, with every escape
  (`JsonSpelling.ParseIsSpelling`).  Printing segments and parsing them returns
  them if and only if none is an integer written with a plus sign
  (`JsonPath.PrintParses`).
- Every statement is written from characters, quoted texts, bracketed names and
  comments (`SqlPieces.EveryText`), and the placeholder counter gives the number
  of those characters that are a question mark (`SqlPieces.PiecesCounted`).
- Expansion by any of the aliases means what SQLite means by all of them, a
  column before an alias, in every model if and only if no alias in scope lies
  under a form the rewriter does not descend into and each name it meets stands
  for the same expression to both (`AliasExpand.ExpandIsExact`).  The second
  expansion of HAVING is idle on every expression if and only if no item of the
  projection shows it an alias it keeps (`AliasExpand.SecondPassExact`).
- The translation cache is transparent over every history if and only if no
  answer depends on the `case_sensitive_like` flag
  (`TranslateCache.TransparentIffFlagFree`).
- COPY text written is the rows read, and a stream is refused exactly when a
  row has another number of columns (`CopyText.StreamReads`).

## What the models show about the code

Each of these is a lemma with the input or the exact condition.

- `:x` and `@x` are two parameters to SQLite and one to the shim
  (`TwoSigilsShareASlot`).  `$5` is a name to SQLite and the fifth slot to the
  shim (`DollarNumberIsASlot`); the dedup pass reserves that slot and the
  placeholders pass does not, so that `$1` and a `?` after it read one bind
  unless a repeated column brings the dedup pass in (`DollarTakesNoSlot`).
  Nor does the placeholders pass record a `$NNN` in the list of names, whose
  length is the number of parameters the caller may bind and PostgreSQL is sent:
  `SET a = $1` has one parameter and none can be bound (`DollarIsNotBound`), nor
  has its shadow any (`ShadowOfDollar`).
- Adding a statement under a hash the cache already holds replaces the old name
  without reporting it (`StmtCache.RunConserves` counts it apart).
- A refused write outside a statement savepoint makes the later COMMIT give up
  the whole transaction (`GuideLoad.CommitAfterRefusal`).  The comment above
  `savepoints_enabled` says they are on unless the variable is 0; the code has
  them off by default, and the model takes the switch as an input.
- SQLite refuses a BEGIN inside a transaction.  The shim opens a savepoint for
  it, and the next COMMIT or ROLLBACK leaves the shim's transaction open where
  SQLite's is over (`GuideLoad.NestedBeginParts`, `NestedBeginShows`).  That the
  plan does what it intends by this is a result of its own
  (`GuideLoad.RunIsIntended`).
- Savepoint names that differ only in case are one name to both servers and two
  to the shim (`GuideLoad.CaseMatters`).  Names that differ only past their 63rd
  byte are one to PostgreSQL and two to SQLite and the shim (`LongNames`).  A
  savepoint named like the shim's own for a nested BEGIN above it is confused
  with it (`NestedNameClash`); these three are all that can go wrong with names
  (`NestedNamesExact`).
- `+5` is printed as a bare index, which the path parser refuses
  (`JsonPath.PrintParses`).
- An alias inside a tuple, an EXTRACT or a FILTER is left in place
  (`AliasExpand.TupleIsMissed`).  The GROUP BY rule also expands an alias that
  is a column in scope, which SQLite would read as the column
  (`ColumnIsReplaced`).  The query rule, the only one WHERE passes through, is
  right where it drops just the aliases that are columns (`FilteredSubstitution`).
  It drops an alias called what it names, so that a later item of the same alias
  is found in its place: `SELECT t.x AS x, y AS x … WHERE x` becomes `WHERE y`
  (`LaterAliasIsFound`).  HAVING is expanded by both rules in turn, and the second
  can expand what the first put in (`SecondPassExpands`).
- `PRAGMA case_sensitive_like` takes effect as a side effect of translating it,
  so a pragma answered from the cache is lost (`TranslateCache.PragmaIsLost`).
- The timestamp's comment speaks of local time; the code computes UTC, and so
  does the model.

## Model

| member | source | states |
|---|---|---|
| `Dedup.DuplicateAssignments` | rust/plex-pg-core/src/dedup.rs:53-62 | the indexes found are exactly the assignments a later one of the same column overrides, highest first |
| `Dedup.DedupAssignments` | rust/plex-pg-core/src/dedup.rs:66-76 | removing from the back leaves the last assignment of each column in order, and the removed values come back in statement order |
| `Dedup.NothingOverridden` | rust/plex-pg-core/src/dedup.rs:30-36 | a statement without repeated columns is left as it is |
| `Dedup.DroppedTokens` | rust/plex-pg-core/src/dedup.rs:38-44 | the statement is renumbered exactly when an overridden value holds a placeholder |
| `Dedup.Numberer.VisitUpdate` | rust/plex-pg-core/src/dedup.rs:98-126 | every placeholder is rewritten in visiting order with the slot the running numbering gives it, nothing else changes |
| `Dedup.Transform` | rust/plex-pg-core/src/dedup.rs:30-50 | numbering, removal and the kept parameters together are the specified rewriting |
| `Numbering.TextsAreSlots` | rust/plex-pg-core/src/dedup.rs:98-126 | the texts written back are the explicit slots, with their names, for every token SQLite accepts |
| `Numbering.StepAgrees` | rust/plex-pg-core/src/dedup.rs:98-126 | in step with SQLite, a parameter gets its slot if and only if it is in place and no known name under another sigil, and then the two stay in step |
| `Numbering.NumberingAgrees` | rust/plex-pg-core/src/dedup.rs:98-126 | from any state in step, the slots of all parameters are SQLite's under exactly that condition |
| `Numbering.NumbersAsSqlite` | rust/plex-pg-core/src/dedup.rs:98-126 | a pass that agrees on the numbers agrees on the names it records |
| `Numbering.ReservingInPlace` | rust/plex-pg-core/src/dedup.rs:110-115 | for the dedup pass the condition on places is that each `$NNN` is first met when SQLite's next slot is NNN |
| `Numbering.WithoutDollars` | rust/plex-pg-core/src/dedup.rs:98-126 | without a `$NNN` every parameter is in place and the two passes give the same slots |
| `Numbering.NumberingIsSqlites` | rust/plex-pg-core/src/dedup.rs:94-126 | over every token SQLite accepts, the numbering is SQLite's if and only if no name but a `$NNN` stands under two sigils and every parameter is in place |
| `UpdateMeaning.AlwaysTrueIsTrue` | rust/plex-pg-core/src/dedup.rs:130-164 | the added conjunct is true for every value, NULL included |
| `UpdateMeaning.KeepAllSelects` | rust/plex-pg-core/src/dedup.rs:130-164 | adding the dropped values to the WHERE clause selects the same rows, under three-valued logic |
| `UpdateMeaning.KeptWritesTheSame` | rust/plex-pg-core/src/dedup.rs:66-76 | PostgreSQL's simultaneous assignments of the kept columns give the row SQLite's rightmost-wins rule gives |
| `UpdateMeaning.CoreKeepsMeaning` | rust/plex-pg-core/src/dedup.rs:30-50 | the rewritten statement selects the same rows and writes the same row, in every lawful model |
| `UpdateMeaning.SqlIsLawful` | rust/plex-pg-core/src/dedup.rs:130-164 | SQL's own NULL, booleans, AND and OR are such a model |
| `UpdateMeaning.CoreFailsOnly` | rust/plex-pg-core/src/dedup.rs:128-164 | where evaluating can fail, a cast to TEXT and a comparison of texts excepted, the rewritten WHERE fails if and only if the original does or an overridden value with a placeholder does |
| `UpdateMeaning.CoreFails` | rust/plex-pg-core/src/dedup.rs:30-50 | so the rewritten statement fails only where the original does |
| `UpdateMeaning.SqlIsTyped` | rust/plex-pg-core/src/dedup.rs:128-129 | SQL's own values, every other cast of a value refused, are such an evaluation |
| `UpdateMeaning.CoreIsGrouped` | rust/plex-pg-core/src/dedup.rs:140-163 | written out, the WHERE clause is read back as the tree it was: what is added neither regroups it nor is regrouped |
| `Placeholders.Pass.constructor` | rust/plex-pg-core/src/placeholders.rs:26-39 | the pass starts with no parameter and no name |
| `Placeholders.Pass.Fresh` | rust/plex-pg-core/src/placeholders.rs:42-46 | one more slot, with the name given |
| `Placeholders.Pass.ExplicitSlot` | rust/plex-pg-core/src/placeholders.rs:48-55 | an explicit slot pads the ones before it and names none |
| `Placeholders.Pass.ExplicitNamed` | rust/plex-pg-core/src/placeholders.rs:57-61 | an explicit slot with its name recorded for later uses |
| `Placeholders.Pass.NamedSlot` | rust/plex-pg-core/src/placeholders.rs:63-72 | a known name keeps its slot, a new one takes the next |
| `Placeholders.Pass.Slot` | rust/plex-pg-core/src/placeholders.rs:74-99 | the slot of a token of any form, or that it is left alone, and the state after it |
| `Placeholders.Pass.VisitExpr` | rust/plex-pg-core/src/placeholders.rs:102-118 | an expression's placeholders are rewritten in visiting order and nothing else changes |
| `Placeholders.ReadsBack` | rust/plex-pg-core/src/placeholders.rs:74-99 | `?NNN` and `?NNN:name` are read back as the slot the dedup pass wrote, in any state |
| `Parameters.RawRun` | rust/plex-pg-core/src/placeholders.rs:26-99 | on tokens left as written PostgreSQL reads the slots of a pass that reserves nothing for a `$NNN`, and the names recorded are the others' |
| `Parameters.FixedRun` | rust/plex-pg-core/src/placeholders.rs:26-99 | on explicit slots it writes exactly those numbers and records exactly those names |
| `Parameters.FixedTexts` | rust/plex-pg-core/src/placeholders.rs:74-99 | and leaves `?0`, which only `$0` gives rise to, as written |
| `Parameters.DescribesAll` | rust/plex-pg-core/src/placeholders.rs:26-72 | the recorded names depend only on which slots occur, not on their order |
| `Parameters.AccountsNames` | rust/plex-pg-core/src/placeholders.rs:26-72 | they are SQLite's names, slot by slot, but for `$NNN`, with none missing and none added |
| `Parameters.ReservedExact` | rust/plex-pg-core/src/placeholders.rs:26-72 | the list of names reaches SQLite's last slot if and only if it did before or a parameter the pass records has that slot |
| `Translation.Translate` | rust/plex-pg-core/src/placeholders.rs:26-32 | the two passes run in turn compute the specified translation |
| `Translation.CoreTokens` | rust/plex-pg-core/src/dedup.rs:30-50 | every placeholder of the statement is still in the rewritten one |
| `Translation.FixedThenPlaced` | rust/plex-pg-core/src/dedup.rs:38-49 | after a move to the WHERE clause every placeholder still reads the slot the dedup pass gave it, whatever the tokens |
| `Translation.TranslationFills` | rust/plex-pg-core/src/dedup.rs:30-50 | the translation is the rewriting of the statement with the shim's slots filled in, in both cases |
| `Translation.CoreFillDiffers` | rust/plex-pg-core/src/dedup.rs:30-50 | statements that differ in a placeholder are rewritten differently: no parameter is lost in the rewriting |
| `Translation.TranslationKeepsSlots` | rust/plex-pg-core/src/dedup.rs:30-50 | as PostgreSQL reads it, the translation is the rewriting of the statement as SQLite numbers it, if and only if the numbering condition holds |
| `Translation.TranslationKeepsNames` | rust/plex-pg-core/src/placeholders.rs:26-72 | and then the recorded names are SQLite's, slot by slot, up to its last slot if and only if a parameter the shim keeps a place for holds that |
| `Translation.BindableWithout` | rust/plex-pg-core/src/placeholders.rs:26-72 | one always does when the dedup pass numbers the statement or no `$NNN` occurs |
| `Translation.AcceptedExact` | rust/plex-pg-core/src/db_interpose_step_write_utils/write_exec.rs:103-136 | PostgreSQL is sent every parameter it reads, as many values as there are names, if and only if one does |
| `Translation.TranslationIsExact` | rust/plex-pg-core/src/db_interpose_prepare/pg_route.rs:245-256 | PostgreSQL accepts the translation and reads in it the rewriting of the statement as SQLite numbers it, if and only if both conditions hold |
| `Translation.TranslationIsFaithful` | rust/plex-pg-core/src/dedup.rs:30-50 | for every such statement, row and list of values, one for each recorded name: same rows selected, same row written, same values returned, whatever the servers make of a parameter past the list |
| `Translation.TranslationFails` | rust/plex-pg-core/src/dedup.rs:128-164 | and where evaluating can fail, PostgreSQL's statement fails only where SQLite's would |
| `Translation.SqlIsBound` | rust/plex-pg-core/src/dedup.rs:30-50 | SQL's own values with parameters read from a list are a model the theorem speaks of |
| `Translation.TwoSigilsShareASlot` | rust/plex-pg-core/src/dedup.rs:98-126 | a name under two sigils, numbered differently by SQLite and by either pass |
| `Translation.DollarNumberIsASlot` | rust/plex-pg-core/src/dedup.rs:110-115 | `$5` is slot 5 to either pass and slot 1 to SQLite |
| `Translation.DollarTakesNoSlot` | rust/plex-pg-core/src/placeholders.rs:91-99 | `$1` and `?`: two slots to SQLite and to the dedup pass, one to the placeholders pass |
| `Translation.DollarIsNotBound` | rust/plex-pg-core/src/db_interpose_bind/support.rs:269-290 | `SET a = $1`: SQLite has slot 1, the list of names is empty, and PostgreSQL asks for a value it is not sent |
| `QuestionMarks.CountBareQuestionMarks` | rust/plex-pg-core/src/db_interpose_prepare_utils.rs:23-70 | skipping ahead counts what a lexer reading byte by byte counts, unterminated quotes and comments included |
| `QuestionMarks.SkipQuoted` | rust/plex-pg-core/src/db_interpose_prepare_utils.rs:28-43 | a literal, doubled quotes included, is skipped with nothing counted |
| `QuestionMarks.SkipBlockComment` | rust/plex-pg-core/src/db_interpose_prepare_utils.rs:55-61 | a block comment, closed or not, is skipped with nothing counted |
| `SqlPieces.PiecesCounted` | rust/plex-pg-core/src/db_interpose_prepare_utils.rs:17-69 | for a statement written from pieces, the last perhaps unended, the count is the number of question marks that are characters on their own |
| `SqlPieces.EveryText` | rust/plex-pg-core/src/db_interpose_prepare_utils.rs:24-69 | every text is so written |
| `QuestionMarks.DummyShadowSql` | rust/plex-pg-core/src/db_interpose_prepare_helpers.rs:262-282 | the loop builds the specified shadow statement |
| `QuestionMarks.ShadowTokens` | rust/plex-pg-core/src/db_interpose_prepare_helpers.rs:256-282 | SQLite reads in it one parameter for each, in order and by name |
| `QuestionMarks.ShadowSlots` | rust/plex-pg-core/src/db_interpose_prepare_helpers.rs:256-282 | each parameter has its own index in it if and only if no two share a name |
| `QuestionMarks.ShadowMarks` | rust/plex-pg-core/src/db_interpose_prepare_helpers.rs:262-282 | the counter finds in it exactly the unnamed parameters |
| `ShadowStatement.ShadowKeepsSlots` | rust/plex-pg-core/src/db_interpose_prepare/sqlite_path.rs:85-100 | slot k of a translated UPDATE's shadow is slot k of the statement the caller wrote, for every slot the shim has a place for, and for all of them if and only if a parameter it keeps a place for holds the last |
| `ShadowStatement.ShadowOfDollar` | rust/plex-pg-core/src/db_interpose_prepare/sqlite_path.rs:85-100 | the shadow of `SET a = $1` has no parameter |
| `AliasExpand.BuildAliasMap` | rust/plex-pg-core/src/groupby.rs:440-448 | the loop collects the lowercased aliases in projection order |
| `AliasExpand.FindsFirst` | rust/plex-pg-core/src/groupby.rs:454-462 | a name stands for the first item aliased so, and for nothing exactly when none is |
| `AliasExpand.ExpandAliases` | rust/plex-pg-core/src/groupby.rs:453-556 | the recursive rewriting, form by form, is the specified expansion |
| `AliasExpand.ExpandsOperand` | rust/plex-pg-core/src/groupby.rs:464-554 | which goes into every operand of an operator, test, list, CASE and the like, the arguments of a function, what is sought in a subquery, and nothing else |
| `AliasExpand.ExpandMeans` | rust/plex-pg-core/src/groupby.rs:450-556 | in every model the expanded expression has the value SQLite gives the original, when no alias is missed and each name met is replaced by what SQLite takes it for |
| `AliasExpand.Substitution` | rust/plex-pg-core/src/groupby.rs:440-556 | that holds for every expression built from operators, tests, lists, CASE and functions without FILTER, and aliases that are no columns |
| `AliasExpand.ReachedIsNeeded` | rust/plex-pg-core/src/groupby.rs:453-556 | in the term model equality forces both |
| `AliasExpand.ExpandIsExact` | rust/plex-pg-core/src/groupby.rs:453-556 | expansion by some aliases means what SQLite means by all, a column before an alias, in every model if and only if that is so |
| `AliasExpand.TupleIsMissed` | rust/plex-pg-core/src/groupby.rs:463-555 | an alias under a form without a case is left, and the meaning lost |
| `AliasExpand.ColumnIsReplaced` | rust/plex-pg-core/src/groupby.rs:124-130 | an alias that is a column is expanded in HAVING, against SQLite's meaning |
| `AliasExpand.FilteredSubstitution` | rust/plex-pg-core/src/query.rs:174-200 | a rule that drops just the aliases that are columns means, on the handled forms, what SQLite means by all the aliases |
| `AliasExpand.QueryRuleRight` | rust/plex-pg-core/src/query.rs:174-200 | the query rule is that rule when the columns among the aliases are those it knows and those called what they name |
| `AliasExpand.QueryRuleExact` | rust/plex-pg-core/src/query.rs:174-200 | the query rule is right on every handled expression if and only if the aliases it uses and those SQLite sees make the same of every name |
| `AliasExpand.LaterAliasIsFound` | rust/plex-pg-core/src/query.rs:180-190 | two items of one alias, the first called what it names: the second is put, whether or not the alias is a column |
| `AliasExpand.IdleIs` | rust/plex-pg-core/src/groupby.rs:453-556 | expansion leaves an expression alone if and only if no name it descends to stands for another expression |
| `AliasExpand.SecondPassExact` | rust/plex-pg-core/src/query.rs:174-200 | the second expansion of HAVING changes no expression if and only if no item its alias stands for shows it an alias it keeps |
| `AliasExpand.ColumnsAreIdle` | rust/plex-pg-core/src/query.rs:174-200 | an item whose names are columns shows it none |
| `AliasExpand.SecondPassExpands` | rust/plex-pg-core/src/query.rs:174-200 | through the filtered map, a projection that uses its own alias is expanded twice |
| `StmtCache.Cache.constructor` | rust/plex-pg-core/src/pg_client_stmt_cache.rs:33-38 | an empty table of 512 slots |
| `StmtCache.Cache.Lookup` | rust/plex-pg-core/src/pg_client_stmt_cache.rs:60-74 | the probing loop returns what the specified search finds |
| `StmtCache.Cache.LookupForUse` | rust/plex-pg-core/src/pg_client_stmt_cache.rs:247-285 | a hit also sets the time of last use, a miss changes nothing |
| `StmtCache.Cache.AddEntry` | rust/plex-pg-core/src/pg_client_stmt_cache.rs:77-136 | the loop's table, index and evicted name are the specified ones, in all five outcomes |
| `StmtCache.Cache.Clear` | rust/plex-pg-core/src/pg_client_stmt_cache.rs:139-148 | every slot is emptied and exactly the stored names come back in slot order |
| `StmtCache.Cache.Perform` | rust/plex-pg-core/src/pg_client_stmt_cache.rs:41-148 | one operation on a valid cache is one step of the model and leaves it valid, count included |
| `StmtCache.MissMeansAbsent` | rust/plex-pg-core/src/pg_client_stmt_cache.rs:41-74 | a probe that stops at an empty slot or goes all round proves the hash absent |
| `StmtCache.LookupAgrees` | rust/plex-pg-core/src/pg_client_stmt_cache.rs:60-74 | probing with wrap-around agrees with the abstract map |
| `StmtCache.AddUpdates` | rust/plex-pg-core/src/pg_client_stmt_cache.rs:93-107 | adding a known hash replaces its entry and no other |
| `StmtCache.AddInserts` | rust/plex-pg-core/src/pg_client_stmt_cache.rs:93-119 | adding an absent hash where there is room adds it and nothing else |
| `StmtCache.AddEvicts` | rust/plex-pg-core/src/pg_client_stmt_cache.rs:122-133 | the victim is an entry of least last use, and no other entry is lost |
| `StmtCache.EvictsOnlyWhenFull` | rust/plex-pg-core/src/pg_client_stmt_cache.rs:84-136 | eviction happens exactly when all slots are taken, the hash is absent and not all times are the maximum; refusal exactly for hash zero or when they are |
| `StmtCache.TouchAgrees` | rust/plex-pg-core/src/pg_client_stmt_cache.rs:41-57 | setting the time of last use changes that entry only |
| `StmtCache.RunKeepsInv` | rust/plex-pg-core/src/pg_client_stmt_cache.rs:41-148 | after any run: one slot per hash and no empty slot before it in its probe order |
| `StmtCache.RunConserves` | rust/plex-pg-core/src/pg_client_stmt_cache.rs:77-148 | every name stored is held, reported or overwritten, as often as it was stored |
| `StmtCache.KeysAreFoundOrEvicted` | rust/plex-pg-core/src/pg_client_stmt_cache.rs:77-136 | since the last clear, a key held is found or was evicted |
| `StmtCacheMap.AddedIsFoundOrReported` | rust/plex-pg-core/src/pg_client_stmt_cache.rs:77-136 | from an empty cache, an entry accepted and not cleared since is found, or an entry of its hash was evicted after it and its name reported |
| `StmtCacheMap.StepRefines` | rust/plex-pg-core/src/pg_client_stmt_cache.rs:41-148 | every operation is one a map of at most 512 entries allows, which knows nothing of slots |
| `StmtCacheMap.CacheIsAMap` | rust/plex-pg-core/src/pg_client_stmt_cache.rs:41-148 | every run of a new cache is a run of that map, and lookups find what it holds |
| `StmtCache.EvictionsAreReported` | rust/plex-pg-core/src/pg_client_stmt_cache.rs:122-133 | the name of every evicted entry is reported |
| `StmtCache.NamesCountKeys` | rust/plex-pg-core/src/pg_client_stmt_cache.rs:139-148 | clear reports one name for each key |
| `ConnRefs.StepKeepsInv` | rust/plex-pg-core/src/ffi_types.rs:93-143 | every atomic step of every thread keeps each count equal to its holders and each connection unfreed while held |
| `ConnRefs.RunKeepsInv` | rust/plex-pg-core/src/ffi_types.rs:93-143 | so does every interleaving of steps |
| `ConnRefs.SubjectIsLive` | rust/plex-pg-core/src/ffi_types.rs:106-129 | a thread about to subtract still counts, so it never touches a freed connection |
| `ConnRefs.CountsAreExact` | rust/plex-pg-core/src/ffi_types.rs:93-143 | in every interleaving: no use after free, no underflow, counts exact, freed at most once and only when nobody holds |
| `ConnRefs.FreedExactlyOnce` | rust/plex-pg-core/src/ffi_types.rs:93-143 | once all threads are idle, freed exactly once if no cell holds it and not at all otherwise |
| `ConnRefs.InitInv` | rust/plex-pg-core/src/pg_client/connection_lifecycle.rs:51-87 | the empty pool is a state all this starts from |
| `ConnRefs.OneLife` | rust/plex-pg-core/src/pg_client/connection_lifecycle.rs:180-201 | a run in which the pool creates a connection and lets it go, which frees it |
| `ConnPointers.ConnRef` | rust/plex-pg-core/src/ffi_types.rs:93-100 | one reference more; nothing for null |
| `ConnPointers.ConnUnref` | rust/plex-pg-core/src/ffi_types.rs:106-129 | frees and says so exactly at the last reference; a count below one is put back |
| `ConnPointers.Statement.ReplaceConn` | rust/plex-pg-core/src/ffi_types.rs:136-143 | the same pointer is left alone; otherwise one up, one down, freed exactly at zero |
| `ConnPointers.Statement.SetConn` | rust/plex-pg-core/src/ffi_types.rs:287-289 | the references that are not this statement's stay what they were, for every connection |
| `ConnPointers.Statement.SetResultConn` | rust/plex-pg-core/src/ffi_types.rs:291-293 | the same for the result pointer, also when two pointers name one connection |
| `ConnPointers.Statement.SetStreamingConn` | rust/plex-pg-core/src/ffi_types.rs:295-297 | the same for the streaming pointer |
| `ConnPointers.Statement.ReleaseConns` | rust/plex-pg-core/src/ffi_types.rs:300-304 | each connection loses exactly this statement's references to it |
| `TxnPlan.BeginSame` | rust/plex-pg-core/src/pg_client/txn.rs:200-274 | BEGIN, nested or not, leaves the intended, the shim's and PostgreSQL's stacks in step |
| `TxnPlan.CommitSame` | rust/plex-pg-core/src/pg_client/txn.rs:200-274 | so does COMMIT: of a nested BEGIN, of the transaction, of nothing |
| `TxnPlan.RollbackSame` | rust/plex-pg-core/src/pg_client/txn.rs:200-274 | so does ROLLBACK |
| `TxnPlan.SavepointSame` | rust/plex-pg-core/src/pg_client/txn.rs:200-274 | so does SAVEPOINT, which opens a transaction where there is none |
| `TxnPlan.ReleaseSame` | rust/plex-pg-core/src/pg_client/txn.rs:200-274 | so does RELEASE, which commits when it closes the savepoint that opened the transaction; an unknown name is ignored |
| `TxnPlan.RollbackToSame` | rust/plex-pg-core/src/pg_client/txn.rs:200-274 | so does ROLLBACK TO, which keeps the savepoint |
| `GuideLoad.Connection.EndStatementSavepoint` | rust/plex-pg-core/src/guide_load.rs:269-274 | releases after success, rolls back and releases after failure |
| `GuideLoad.Connection.ResyncSequence` | rust/plex-pg-core/src/guide_load.rs:428-437 | inside a transaction the resync runs in a savepoint of its own |
| `GuideLoad.Connection.ExecuteWrite` | rust/plex-pg-core/src/db_interpose_step_write_utils/write_exec.rs:28-149 | savepoint, write, end and resync in the order the step path has them |
| `GuideIds.WriteRaises` | rust/plex-pg-core/src/db_interpose_step_write_utils/write_exec.rs:138-149 | the sequence is raised to what the write left exactly when the write and its resync are accepted, in a transaction or not, under a savepoint or not |
| `GuideLoad.BracketLeaves` | rust/plex-pg-core/src/guide_load.rs:261-274 | a bracketed statement leaves the savepoint stack as it was, and the contents changed exactly when accepted |
| `GuideLoad.ResyncLeaves` | rust/plex-pg-core/src/guide_load.rs:409-437 | a resync, accepted or refused, leaves the session as it was |
| `GuideLoad.WriteLeaves` | rust/plex-pg-core/src/guide_load.rs:261-274 | a write, resync nested inside, keeps the transaction usable and applies exactly an accepted write |
| `GuideLoad.ControlSame` | rust/plex-pg-core/src/pg_client/txn.rs:397-477 | every transaction command keeps the session where the plan intends |
| `GuideLoad.RunIsIntended` | rust/plex-pg-core/src/pg_client/txn.rs:18-27 | so does every run, BEGIN nested or not, writes accepted or refused |
| `GuideLoad.NestedBeginParts` | rust/plex-pg-core/src/pg_client/txn.rs:21-23 | after a BEGIN that SQLite refuses, COMMIT or ROLLBACK ends SQLite's transaction and not the shim's |
| `GuideLoad.NestedBeginShows` | rust/plex-pg-core/src/pg_client/txn.rs:21-23 | BEGIN, BEGIN, ROLLBACK from a fresh connection |
| `GuideLoad.StepFollows` | rust/plex-pg-core/src/pg_client/txn.rs:200-274 | one command or write keeps the shim where SQLite stands if and only if it is no BEGIN inside a transaction and, without savepoints, no write refused inside one |
| `GuideLoad.RunIsSqlites` | rust/plex-pg-core/src/guide_load.rs:261-274 | over every run of control and writes the shim stands where SQLite stands at every point, if and only if no BEGIN is issued inside a transaction |
| `GuideLoad.RunFromStart` | rust/plex-pg-core/src/guide_load.rs:261-274 | so from a fresh connection it ends with SQLite's rows, committed rows and open transaction |
| `GuideLoad.UnbracketedWrite` | rust/plex-pg-core/src/guide_load.rs:207-209 | without the savepoint a write does what is intended if and only if it is accepted or outside a transaction |
| `GuideLoad.UnbracketedRun` | rust/plex-pg-core/src/guide_load.rs:207-209 | a run follows SQLite if and only if no BEGIN is issued and no write refused inside a transaction |
| `GuideLoad.CommitAfterRefusal` | rust/plex-pg-core/src/guide_load.rs:101-105 | what COMMIT then gives up, and does not with the savepoint |
| `GuideLoad.CaseMatters` | rust/plex-pg-core/src/pg_client/txn.rs:200-274 | two spellings of one savepoint name part the shim from SQLite |
| `GuideLoad.LongNames` | rust/plex-pg-core/src/pg_client/txn.rs:200-274 | two names that differ only past the 63rd byte do, another way round: going back to the one goes back to the other |
| `GuideLoad.NamesExact` | rust/plex-pg-core/src/pg_client/txn.rs:200-274 | every run over a set of names, short of nesting, shows what SQLite shows if and only if no two of them are one name to PostgreSQL |
| `GuideLoad.NestedNameClash` | rust/plex-pg-core/src/pg_client/txn.rs:200-274 | a savepoint named like a nested BEGIN above it, at any depth, is confused with it |
| `GuideLoad.NestedNamesExact` | rust/plex-pg-core/src/pg_client/txn.rs:200-274 | every run over a set of names shows what the plan intends if and only if no two are one name to PostgreSQL and none is that of a nested BEGIN |
| `IdSequence.RaisedNext` | rust/plex-pg-core/src/guide_load.rs:394-407 | the resync makes the next id the larger of what it was and one past the largest id |
| `IdSequence.StepKeepsFresh` | rust/plex-pg-core/src/guide_load.rs:394-437 | every insert, id assignment, delete, savepoint or rollback keeps the next id above every id present |
| `IdSequence.NextIdIsFresh` | rust/plex-pg-core/src/guide_load.rs:394-437 | so does every run, and the next id never goes down |
| `IdSequence.FreshFromStart` | rust/plex-pg-core/src/guide_load.rs:394-437 | whatever is run on a new table, the next id is above every id present |
| `IdSequence.WithoutResync` | rust/plex-pg-core/src/guide_load.rs:409-437 | without it the next id stays fresh if and only if every id assigned is below it |
| `IdSequence.NextIsSqlites` | rust/plex-pg-core/src/guide_load.rs:394-437 | after any run on a new table the next id is SQLite's, one past the largest present, if and only if no larger id was ever used |
| `GuideIds.StepFresh` | rust/plex-pg-core/src/db_interpose_step_write_utils/write_exec.rs:28-149 | on a connection with its sequence every command and write keeps the next id above every id present, committed, or that a rollback can bring back |
| `GuideIds.LoadsNextId` | rust/plex-pg-core/src/guide_load.rs:409-437 | so does every run on a new table, with statement savepoints or without |
| `SplitTopLevel.Split` | rust/plex-pg-core/src/guide_load.rs:367-386 | the scan cuts at every comma outside quotes and parentheses and at no other |
| `SplitTopLevel.PartsJoin` | rust/plex-pg-core/src/guide_load.rs:367-386 | joined with commas the parts are the text, and no part has a cut of its own |
| `SplitTopLevel.JoinParts` | rust/plex-pg-core/src/guide_load.rs:367-386 | such parts joined are split back into themselves |
| `SplitTopLevel.ValuesSplit` | rust/plex-pg-core/src/guide_load.rs:366-387 | values written with balanced parentheses and closed quotes, with commas between them, are split into just those values |
| `Utf8.PushedChar` | rust/plex-pg-core/src/byte_utils.rs:36-55 | the first byte of a character contributes all of it |
| `ReplaceIcase.ReplaceAll` | rust/plex-pg-core/src/db_interpose_prepare_helpers.rs:45-64 | the byte walk computes the specified replacement; an empty pattern changes nothing |
| `ReplaceIcase.WalkIsOnChars` | rust/plex-pg-core/src/byte_utils.rs:36-55 | on the bytes of any characters it is leftmost non-overlapping replacement on the characters |
| `ReplaceIcase.ReplacedChars` | rust/plex-pg-core/src/db_interpose_prepare_helpers.rs:45-64 | for every well-formed text, pattern and replacement, the result is well-formed and its characters are the replaced characters |
| `FtsSimplify.Find` | rust/plex-pg-core/src/db_interpose_prepare_helpers.rs:36-43 | the leftmost occurrence in any case from a character boundary on, or that there is none |
| `FtsSimplify.FindJoinEnd` | rust/plex-pg-core/src/db_interpose_prepare_helpers.rs:149-155 | the nearest of the five keywords after the join, or the end of the text |
| `FtsSimplify.CutMakesNone` | rust/plex-pg-core/src/db_interpose_prepare_helpers.rs:148-158 | a cut creates no occurrence of a join pattern |
| `FtsSimplify.ReplaceMakesNone` | rust/plex-pg-core/src/db_interpose_prepare_helpers.rs:196-197 | nor does putting `1=0` for a MATCH clause |
| `FtsSimplify.CutJoins` | rust/plex-pg-core/src/db_interpose_prepare_helpers.rs:148-158 | the loop cuts the leftmost join up to its end keyword until none is left, on well-formed text throughout |
| `FtsSimplify.ReplaceMatches` | rust/plex-pg-core/src/db_interpose_prepare_helpers.rs:171-198 | the loop replaces the leftmost MATCH clause up to the end of its literal until there is none or its literal is incomplete |
| `FtsSimplify.Simplify` | rust/plex-pg-core/src/db_interpose_prepare_helpers.rs:134-201 | nothing exactly when no full-text table is named; otherwise exactly the joins and then the MATCH clauses taken out, pattern by pattern, and the text well-formed |
| `FtsSimplify.SimplifiedHasNoJoins` | rust/plex-pg-core/src/db_interpose_prepare_helpers.rs:134-201 | the result has none of the four joins in any case, for every input |
| `FtsSimplify.MatchPassSettles` | rust/plex-pg-core/src/db_interpose_prepare_helpers.rs:171-198 | after its pass a pattern is gone, or its leftmost clause has no complete literal |
| `FtsSimplify.ClauseReplaced` | rust/plex-pg-core/src/db_interpose_prepare_helpers.rs:170-199 | a MATCH clause in any case, its literal with quotes doubled, becomes `1=0` as a whole |
| `FtsSimplify.ClauseLeft` | rust/plex-pg-core/src/db_interpose_prepare_helpers.rs:172-196 | one whose literal is not closed is left |
| `FtsSimplify.JoinRemoved` | rust/plex-pg-core/src/db_interpose_prepare_helpers.rs:147-157 | a join clause in any case is cut up to the first of the five words that end it, or the end |
| `FtsSimplify.SimplifiesClause` | rust/plex-pg-core/src/db_interpose_prepare_helpers.rs:133-203 | a statement with one MATCH clause on any of the eight columns has it replaced and nothing else changed |
| `FtsSimplify.NoTableNoJoin` | rust/plex-pg-core/src/db_interpose_prepare_helpers.rs:134-140 | a statement refused as naming no full-text table joins none |
| `JsonPath.Print` | rust/plex-pg-core/src/functions.rs:474-488 | the loop prints each segment as an index or as an escaped key |
| `JsonSpelling.IndexPrinted` | rust/plex-pg-core/src/functions.rs:466-489 | an integer of 64 bits is printed as an index, one beyond as a key |
| `JsonSpelling.KeyPrinted` | rust/plex-pg-core/src/functions.rs:466-489 | so is every segment with a byte that is no digit, a sign in front apart |
| `JsonPath.ParseSegments` | rust/plex-pg-core/src/functions.rs:493-615 | the index-driven parser computes the specified reading, with every refusal |
| `JsonSpelling.SpelledParses` | rust/plex-pg-core/src/functions.rs:492-606 | a path of segments, each dotted, bracketed or quoted with doubled quotes and backslashes, spaces inside the brackets, is read as those segments |
| `JsonSpelling.DotRefused` | rust/plex-pg-core/src/functions.rs:502-515 | a dot that no name follows is refused, wherever it stands |
| `JsonSpelling.ParseIsSpelling` | rust/plex-pg-core/src/functions.rs:492-606 | and a path of text is read as a list of segments only if it is such a spelling of it |
| `JsonPath.ReadQuoted` | rust/plex-pg-core/src/functions.rs:529-555 | a quoted key with backslashes, doubled quotes and multi-byte characters, and where it ends |
| `JsonPath.EscapeCons` | rust/plex-pg-core/src/functions.rs:470-472 | the two replacements in turn are one map of the bytes |
| `JsonPath.EscapeReads` | rust/plex-pg-core/src/functions.rs:470-472 | an escaped key of any characters is read back up to its quote |
| `JsonPath.ReadsStep` | rust/plex-pg-core/src/functions.rs:466-615 | one printed segment is read back, and refused exactly when it is a plus-signed integer |
| `JsonPath.PrintParses` | rust/plex-pg-core/src/functions.rs:466-615 | printing and parsing returns the segments if and only if none is a plus-signed integer |
| `JsonPath.SegmentsValid` | rust/plex-pg-core/src/functions.rs:493-615 | the segments of a well-formed path are well-formed text |
| `JsonPath.Reprinted` | rust/plex-pg-core/src/functions.rs:466-615 | a path and its reprint are read alike under the same condition |
| `CopyText.WriteRow` | scripts/migrate_table.py:62-79 | the buffer grows by the row's line |
| `CopyText.WriteRows` | scripts/migrate_table.py:81-96 | what is sent is the rows' lines in order, whatever the batch size |
| `CopyText.EscapedCons` | scripts/migrate_table.py:72-75 | the four replacements in turn are one map of the characters |
| `CopyText.DecodeField` | scripts/seed_shadow_table_from_pg.py:95-161 | the decoding loop with its hexadecimal and octal escapes computes the specified decoding |
| `CopyText.LetterDecodes` | scripts/seed_shadow_table_from_pg.py:110-137 | the characters the letter escapes stand for |
| `CopyText.OctalDecodes` | scripts/seed_shadow_table_from_pg.py:148-156 | one to three octal digits stand for the character of that number |
| `CopyText.HexDecodes` | scripts/seed_shadow_table_from_pg.py:138-147 | an x and one or two hexadecimal digits do |
| `CopyText.OtherDecodes` | scripts/seed_shadow_table_from_pg.py:157-158 | any other character stands for itself |
| `CopyText.CollectDigits` | scripts/seed_shadow_table_from_pg.py:138-156 | the digits taken are the longest run, up to two or three |
| `CopyText.EscapedReads` | scripts/seed_shadow_table_from_pg.py:95-168 | an escaped field has no raw tab, newline or return, is not the NULL mark, and decodes to the text |
| `CopyText.ReadRows` | scripts/seed_shadow_table_from_pg.py:213-227 | the reading loop splits universal newlines and tabs and stops at a wrong field count |
| `CopyText.LineRead` | scripts/seed_shadow_table_from_pg.py:213-227 | a line of fields, ended by a newline, a carriage return, both or the text, is one row |
| `CopyText.StreamReads` | scripts/seed_shadow_table_from_pg.py:164-227 | rows written are the rows read; refused exactly when some row has another number of columns |
| `ValueRing.ValueRing.Put` | rust/plex-pg-core/src/db_interpose_value.rs:62-74 | the slot returned holds the bytes and then a 0, and no other slot changes |
| `ValueRing.ValueRing.Take` | rust/plex-pg-core/src/db_interpose_value.rs:78-89 | the slot returned is of the capacity asked for and all 0 |
| `ValueRing.StepKeepsInv` | rust/plex-pg-core/src/db_interpose_value.rs:62-90 | a put, a take or a caller's write into what it took keeps the last calls' texts in place |
| `ValueRing.LastCallsStand` | rust/plex-pg-core/src/db_interpose_value.rs:38-90 | after every run the last count calls are in distinct slots with their texts unchanged |
| `ValueRing.NextIsOldest` | rust/plex-pg-core/src/db_interpose_value.rs:38-47 | the call after that reuses the oldest of them: a pointer is good for one round and no more |
| `TranslateCache.HashSqlBytes` | rust/plex-pg-core/src/ffi.rs:60-67 | the loop is FNV-1a on 64 bits that wrap |
| `TranslateCache.HashVectors` | rust/plex-pg-core/src/ffi.rs:60-67 | FNV's own test vectors |
| `TranslateCache.TranslationCache.Lookup` | rust/plex-pg-core/src/ffi.rs:76-125 | a hit only for the same hash and the same text |
| `TranslateCache.TranslationCache.Store` | rust/plex-pg-core/src/ffi.rs:127-139 | overwrites the slot of the hash and no other |
| `TranslateCache.TranslationCache.SqlTranslate` | rust/plex-pg-core/src/ffi.rs:339-445 | a cached call: refusals, hit, failure not stored, miss stored |
| `TranslateCache.SteadyIsTransparent` | rust/plex-pg-core/src/ffi.rs:339-445 | with the flag left alone, every history answers what the translator does, collisions included |
| `TranslateCache.TransparentIffFlagFree` | rust/plex-pg-core/src/keywords.rs:28-41 | over all histories that holds if and only if no answer depends on the flag |
| `TranslateCache.StaleAnswers` | rust/plex-pg-core/src/keywords.rs:28-41 | a text cached under one setting answers so under the other |
| `TranslateCache.PragmaIsLost` | rust/plex-pg-core/src/keywords/preprocess.rs:807-816 | a pragma answered from the cache does not set the flag for the next text |
| `Calendar.DaysToYmdValid` | rust/plex-pg-core/src/pg_logging.rs:186-200 | every day count gives a valid Gregorian date |
| `Calendar.DaysToYmdNext` | rust/plex-pg-core/src/pg_logging.rs:186-200 | the next count gives the calendar's next day, leap years and eras included |
| `Calendar.Epoch` | rust/plex-pg-core/src/pg_logging.rs:186-200 | day 0 is 1970-01-01 |
| `Calendar.DaysToYmdCounts` | rust/plex-pg-core/src/pg_logging.rs:186-200 | the closed formula is day-by-day counting |
| `Calendar.TimeSplit` | rust/plex-pg-core/src/pg_logging.rs:170-177 | the four parts of a time add up to it |
| `Calendar.StampNext` | rust/plex-pg-core/src/pg_logging.rs:163-184 | one second later the stamp is the next second, over midnight included |

## Left out

- sqlparser itself, and statements other than UPDATE in the parameter passes: expressions are trees of forms and operands in the visitor's order.
- Tuple targets, FROM and LIMIT of an UPDATE, and the LIMIT rewriting of the placeholders pass: the column targets carry the hard case.
- Which of several errors a statement raises, and operands PostgreSQL does not reach: a form fails with any of its operands.
- The width of usize in parameter numbers, and SQLite's limit on them: numbers are unbounded.
- Tokens SQLite's tokenizer does not accept: SQLite never hands them over.
- GROUP BY expansion, the choice of DISTINCT and ORDER BY fixes in `groupby.rs`: adding grouping columns can change groups, so only the alias pass is claimed.
- Named and wildcard function arguments in alias expansion: an argument is an expression.
- Savepoint names PostgreSQL would reject, quoted names, and the recogniser of transaction statements: commands arrive classified.
- Deadlines, sockets, staging and the recogniser `id_assignment` of guide loads: that a statement assigned ids is an input.
- Pool acquisition, transaction pinning and the memory orderings of the atomics: each atomic operation is one step of an interleaving.
- The connection's own fields, libpq handles and mutexes: a connection is its count and whether it was freed.
- Truncation of statement names to their C buffer, and DEALLOCATE: a name is a string and evicted names are reported.
- The joins' aliases and the rest of `fts_for_sqlite`: its last check is a pair of containments.
- `make_path_text_array_expr`: joining segments with commas is no round trip, and none is claimed.
- BLOB, numeric and boolean columns of the COPY scripts: the scripts encode bytes differently, and numbers are Python's own text.
- Other threads' rings and the addresses of buffers: a slot stands for the address a caller was given.
- Error texts of `sql_translate`, allocation failure and freeing of its results: an answer is success, text and names.
- Log files, rotation, levels and environment switches: plumbing.
- Constant tables and one-branch predicates throughout: they would only add easy members.
