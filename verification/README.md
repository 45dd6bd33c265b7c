# Verified model of the database layer

A Dafny model of the parts of the database abstraction layer that carry its state, its branching
and its rewriting, with proofs of what they promise. `dafny verify dfyconfig.toml` checks it.

## What is modelled

**Placeholders.** The SQL lexer (`SqlLexer`), the visitor that expands array parameters, the pass
that turns the expanded text into `@pN` bindings, and the rewriters of the pg and mssql drivers
(`QueryCompiler`). `SqlTokens` says what single tokens are, on literal text. The meaning of a query
is the query with its values in place (`QueryMeaning.Substitute`): arrays as comma lists, an empty
array as NULL, `??` as a question mark, with the values and types written out as the caller gives them.
`SqlRewriting` shows that the lexer is the same as cutting the text into closed regions and then
looking for placeholders in what is left, and when swapping text leaves every region where it was.
From this follows that the second lexing pass sees exactly the placeholders that the first one wrote
(`QueryCorrectness`, `QueryReadback`, `QueryTheorems`). `QueryDrivers` is about what the pg and mssql
drivers send. `QueryEdgeCases` names inputs for which a law fails.

**Transactions.** `Savepoints` is a database session with a stack of savepoints, where names are
shadowed or replaced and are kept or dropped on rollback, depending on the database. The machine
that the connection runs against it simulates nested transactions, that is, a stack of snapshots.
`Connections` has the pg driver connection and the connection itself as classes, with arbitrary
failures of every statement, of every acquisition of a client and of every connection attempt, over
a pool that successive driver connections share. Every call of the driver is recorded with its
answer: what a method sends is stated exactly, and done means that every call was answered.
`Replicas` is the primary/replica wrapper. `SerialQueue` is the promise chain of the mssql driver in
every interleaving.

**Schema.** `Comparator` compares the columns of two tables, `ForeignKeys` pairs their foreign keys,
`RenamedColumns` is the record of column renames and its cascades. `SqliteAlter` builds the
statements of a SQLite migration, `SqliteDatabase` runs them, and `SqliteMigration` and
`SqliteAddColumn` prove that the data is kept.

**Query builder.** `Joins`, `JoinTheorems` and `JoinClauses` are the recursive emission of joins,
`Predicates` the WHERE predicates and their text, `QueryBuilder` the class that uses both.

**Printers, parsers, checksum.** `Quoting` has the string literals of the platforms;
`EnumDeclarations` and `DefaultLiterals` pair what the platforms print with the scanners that read it
back; `Crc32` is the checksum of generated names.

Code that changes things step by step is a class or a method with loops, proved against functions;
the laws are lemmas about these functions. Failures of the outside world are nondeterministic
choices: `reliable` connections have none, and for them the class is the stack of snapshots.

## What the proofs found

- Two placeholders side by side (`:a:b`) are compiled to an escaped question mark. An empty array
  after a colon becomes a named placeholder, one before `ARRAY[` hides the word from the bracket
  pattern, and a digit after a placeholder joins the number of its binding. A binding right after
  a word or a sigil is part of a name and is not read.
- On mssql a `??` beside a bound value is taken for a placeholder by the driver's own pass, and only
  there the meaning is lost. On pg it is the other way round: a query without bound values is sent
  with its `??` unchanged.
- A pooled client is lost when a connection is reset while the driver holds the client, as by a
  BEGIN that loses the connection: it is never released. Nothing else unbalances the pool.
- Without savepoints (DB2) a nested `beginTransaction` fails but counts its level. From there
  `rollBack` always fails and leaves the level; only a `commit`, which fails too, lowers it.
- Without auto-commit the first write of the replica wrapper runs outside any transaction, since the
  primary is connected before `connect` could begin one.
- SQL whose own text holds the name of a bind reads that bind: with one value `@p1 ?` gets it twice,
  as `$1 ?` does on pg.
- The shortcut for plain positional lists agrees with full expansion exactly when there are no names
  and as many placeholders as values. A name beside such a list takes the next value of the list,
  except on pg, which refuses it.
- An explicit rename is reported exactly when the old name is gone and the new name is new. In a
  chain of renames the middle column keeps the data of the wrong column.
- A SQLite rebuild keeps the rows exactly when it keeps a column (or there are none). Columns that
  the rebuild pairs only by their definition keep their position but not their data. Where only
  columns are added, a table does not get the name of the new one.
- Foreign keys without a name share one. An unchanged key is dropped and added again when it meets a
  different new key of its name before the equal one, or when another key of that name took its
  partner; `KeptExactly` has the exact condition.
- A table of a later FROM clause may repeat an earlier table or a join alias unnoticed, exactly when
  it has no joins of its own and a join of that name is written before it.
- `commit` and `rollBack` of the replica wrapper connect to the primary even without a transaction.
- `docs/configuration.md` says that reads go back to a replica after `ensureConnectedToReplica()`.
  Without `keepReplica` the code then returns the primary; the model follows the code.
- `setNestTransactionsWithSavepoints` is stored and never read.
- On MariaDB a default literal written by the base platform comes back exactly when it holds no
  escape sequence; the literal of MariaDB's own platform always does. The literal of MySQL's own
  platform comes back on MySQL exactly when the string has no backslash.
- Names that differ only in the high byte of a character have the same hash.

## Model

| member | source | states |
|---|---|---|
| SqlLexer.Parser.Parse | src/sql/parser.ts:51-82 | The loop ends for every input and both escaping modes, never fails, and reports tokens that concatenate to the input |
| SqlLexer.LexIsLossless | src/sql/parser.ts:51-82 | The tokens of any text are a partition of it |
| SqlLexer.LexAt | src/sql/parser.ts:54-62 | Token i is the match at its own offset, with all text before it as lookbehind |
| SqlLexer.RegionLengthIsExact | src/sql/parser.ts:7-16 | The scanners find a closed string, identifier or comment exactly where the patterns match one |
| SqlLexer.NoParameterInsideRegion | src/sql/parser.ts:30-49 | Nothing inside a closed region that starts at a token is reported as a parameter |
| SqlLexer.ModesAgree | src/sql/parser.ts:84-92 | Without backslashes both escaping modes give the same tokens |
| SqlTokens.NamedParameterIsLexed | src/sql/parser.ts:11 | A colon and a name over a-z, A-Z, 0-9 and the underscore, up to the end or another character, is one named parameter |
| SqlTokens.OtherColonIsLexed | src/sql/parser.ts:9 | A colon before any other character is text, alone or with the colons after it |
| SqlTokens.PlainTextIsLexed | src/sql/parser.ts:5-16 | Text without the eight special characters, as long as it goes, is one token |
| SqlTokens.BracketIsLexed | src/sql/parser.ts:8 | A bracket after the word ARRAY in any case is text by itself; elsewhere it begins an identifier up to the closing bracket |
| SqlTokens.LineCommentIsLexed | src/sql/parser.ts:13 | Two dashes and the rest of the line are one token |
| SqlTokens.QuestionIsLexed | src/sql/parser.ts:10-12 | A question mark alone is a placeholder, two are an escape, one left over is text |
| SqlRewriting.MarksOfShape | src/sql/parser.ts:30-82 | The lexer is the composition of cutting out regions and marking placeholders |
| SqlRewriting.Reshape | src/sql/parser.ts:5-16 | Swapping harmless text for harmless text leaves every region in place, including regions that never close |
| QueryCompiler.ExpandArrayParameters.AppendTypedParameter | src/expand-array-parameters.ts:103-112 | Appends n placeholders, the n values and their types at the new positions |
| QueryCompiler.ExpandArrayParameters.AcceptParameter | src/expand-array-parameters.ts:65-85 | An untyped value stays, an array type goes through the elements or the characters, an empty array is NULL, and what cannot be gone through is an error |
| QueryCompiler.ExpandArrayParameters.AcceptPositionalParameter | src/expand-array-parameters.ts:23-31 | Takes the next value or reports which one is missing |
| QueryCompiler.ExpandArrayParameters.AcceptNamedParameter | src/expand-array-parameters.ts:33-40 | Takes the value of that name or reports it missing |
| QueryCompiler.ExpandArrayParameters.AcceptEscapedQuestionMark | src/expand-array-parameters.ts:46-51 | Keeps the escape for the next pass |
| QueryCompiler.ExpandQuery | src/connection.ts:755-780 | The visitor driven by the parser, or the shortcut, gives the specified text, values and types, or the same error |
| QueryCompiler.ConvertPositionalToNamedBindings | src/connection.ts:782-830 | The second pass gives the specified text and bindings, or the same error |
| QueryCompiler.CompileNamedQuery | src/connection.ts:741-753 | Both passes in a row |
| QueryCompiler.ConvertPositionalPlaceholders | src/driver/pg/connection.ts:235-256 | The pg rewriter gives the specified text, or refuses a named placeholder |
| QueryCompiler.ConvertPlaceholders | src/driver/mssql/connection.ts:175-196 | The mssql rewriter gives the specified text |
| QueryPasses.FirstPassRenders | src/expand-array-parameters.ts:23-112 | Expansion is the text with a word for every placeholder, and its values and types are those of the placeholders in order; errors are the same |
| QueryPasses.GivenIsAt | src/expand-array-parameters.ts:23-62 | The visitor takes the value and the type that the caller gives for the placeholder, by position or by name |
| QueryPasses.SecondPassBinds | src/connection.ts:782-830 | The second pass numbers the placeholders from one and binds each value once under its name |
| QueryPasses.PgPassBinds | src/driver/pg/connection.ts:235-256 | The pg pass numbers the placeholders from one |
| QueryCorrectness.RenderingReadsAlike | src/connection.ts:741-753 | Rewritten text is lexed as the rewritten items |
| QueryTheorems.SecondPassSeesTheFirst | src/connection.ts:741-753 | The second lexing pass finds exactly the placeholders that the first one wrote |
| QueryReadback.ReadBack | src/connection.ts:741-830 | Reading the binds of the final text gives the query with its values in place if and only if no bind is written into a name and the query's own text names no bind |
| QueryTheorems.FinalTextReadsBack | src/connection.ts:782-830 | The same for the text of a whole query and any list that begins with its values |
| QueryTheorems.CompiledTextReadsBack | src/connection.ts:741-830 | Expanding and then binding gives the text that binds the values directly, and reading it gives the query with its values in place, if and only if no bind is written into a name and the own text names none |
| QueryTheorems.ShortcutRefinesExpansion | src/connection.ts:755-780 | For a positional list without array types the shortcut equals full expansion if and only if there are no names and as many placeholders as values |
| QueryTheorems.BoundAsWritten | src/connection.ts:755-780 | The values that are bound are those the query asks for, unless names or a record of types stand beside a positional list |
| QueryTheorems.NamedCompilationKeepsMeaning | src/connection.ts:741-830 | A compiled query means the query with the bound values in place if and only if no bind is written into a name and the own text names no bind, and fails with the same error; beside a positional list names are bound by position |
| QueryTheorems.ArrayElementsAreExpanded | src/expand-array-parameters.ts:65-85 | Each element of an array is expanded to a value of its own: INTEGER, STRING, ASCII or BINARY as the array is |
| QueryTheorems.ArrayElementsAreBound | src/connection.ts:741-753 | And it is bound under a name of its own with that type |
| QueryDrivers.SendToPg | src/connection.ts:668-700 | Without values the expanded text is sent as it is, otherwise the rewritten text with the values |
| QueryDrivers.SendToMssql | src/connection.ts:668-700 | Without binds the compiled text is sent as it is, otherwise as the driver rewrites it |
| QueryDrivers.RawTextKeepsMeaning | src/connection.ts:671-673 | Text without values that is sent unconverted means its query if and only if it has no `??` |
| QueryDrivers.PgRefusesNames | src/driver/pg/connection.ts:235-256 | The pg pass refuses every text with a named placeholder, wherever it stands |
| QueryDrivers.PgCompilationKeepsMeaning | src/driver/pg/connection.ts:133-138 | For SQL without backslashes what is sent to pg means the query if and only if no bind is written into a name, the own text names no bind, and a value is bound or there is no `??`; names beside a positional list are refused, and each error and its case is given |
| QueryDrivers.ReadKeepsQuestions | src/driver/mssql/connection.ts:109-121 | The database reads as many question marks as the text it is sent has |
| QueryDrivers.MssqlPassQuestions | src/driver/mssql/connection.ts:175-196 | The driver's pass takes away one question mark for each one it reports |
| QueryDrivers.QuestionIsReported | src/sql/parser.ts:12 | A question mark outside closed regions is always reported, as a placeholder or an escape |
| QueryDrivers.MssqlDriverPass | src/driver/mssql/connection.ts:175-196 | The driver's pass leaves compiled text as it is if and only if the query has no `??` |
| QueryDrivers.MssqlCompilationKeepsMeaning | src/driver/mssql/connection.ts:109-121 | For SQL without backslashes what is sent to mssql means the query if and only if no bind is written into a name, the own text names no bind, and no value is bound beside a `??`; errors are the same |
| QueryEdgeCases.AdjacentPlaceholdersMerge | src/expand-array-parameters.ts:33-40 | `:a:b` loses both values |
| QueryEdgeCases.EmptyArrayAfterColon | src/expand-array-parameters.ts:65-85 | `:?` with an empty array fails in the second pass |
| QueryEdgeCases.EmptyArrayBeforeArray | src/sql/parser.ts:8 | `?ARRAY[?]` with an empty array is compiled to `NULLARRAY[?]`, which binds nothing: the second value is lost |
| QueryEdgeCases.DigitAfterPlaceholder | src/connection.ts:782-830 | `?1` is compiled to `@p11`, which binds nothing |
| QueryEdgeCases.PlaceholderAfterWord | src/connection.ts:782-830 | `IN?` is compiled to `IN@p1`, a name |
| QueryEdgeCases.OwnTextNamesBind | src/connection.ts:782-830 | `@p1 ?` is compiled to `@p1 @p1`, which reads the value twice |
| QueryEdgeCases.OwnTextNamesPgBind | src/driver/pg/connection.ts:235-256 | `$1 ?` reaches pg as `$1 $1`, which reads the value twice |
| QueryEdgeCases.NameTakesNextValue | src/connection.ts:793-806 | `:a` beside a positional list of one value binds that value, where an expansion would miss the name |
| QueryEdgeCases.MssqlRewritesEscape | src/driver/mssql/connection.ts:175-196 | `a ?? b = ?` with one value reaches mssql as `a @p1 b = @p1` |
| QueryEdgeCases.PgKeepsEscapeWithoutValues | src/connection.ts:671-673 | `??` without values reaches pg unchanged |
| QueryEdgeCases.RecordTypesAreIgnored | src/connection.ts:832-852 | A record of types beside a positional list binds every value as STRING |
| Savepoints.SavepointNameInjective | src/connection.ts:609-611 | Levels have different savepoint names |
| Savepoints.LiveTop | src/connection.ts:418-426 | The last savepoint of the innermost level holds the data of its begin, whatever stale names lie around it |
| Savepoints.SimulatesPush | src/connection.ts:375-402 | A begin pushes the data of now and keeps the outer savepoints live, where the platform has savepoints or the level is the first |
| Savepoints.SimulatesCommit | src/connection.ts:428-452 | A commit pops one level, with or without a release of the savepoint |
| Savepoints.SimulatesRollBack | src/connection.ts:454-484 | A rollback restores the data of its begin and keeps the outer levels rollback-able |
| Savepoints.SimulatesCommitAll | src/connection.ts:657-666 | Committing level by level is committing all levels at once |
| Savepoints.SimulatesStep | src/connection.ts:375-484 | Every operation of the machine is the operation on the stack of snapshots |
| Savepoints.NestedBeginIsRefused | src/connection.ts:394-399 | Without savepoints a begin inside a transaction is refused |
| Savepoints.EveryRunIsNested | src/connection.ts:375-484 | On every run no statement is refused and the machine stays a stack of snapshots, if and only if the platform has savepoints or no transaction is begun inside another |
| Savepoints.RollBackUndoesItsLevel | src/connection.ts:454-484 | Whatever happens inside a level, its rollback restores the data of its begin and leaves the outer levels as they were |
| Savepoints.OutermostCommitIsDurable | src/connection.ts:428-452 | After the outermost commit a later rollback keeps the data |
| Connections.PgConnection.Send | src/driver/pg/connection.ts:140-142 | Every statement goes to the transaction's client if there is one |
| Connections.PgConnection.BeginTransaction | src/driver/pg/connection.ts:51-70 | Under any failure an acquired client is held, a held one stays, the flag says whether BEGIN succeeded, and one BEGIN was sent or none where no client could be had |
| Connections.PgConnection.ReleaseTransactionClient | src/driver/pg/connection.ts:144-154 | The held client is given back to the pool once |
| Connections.PgConnection.Commit | src/driver/pg/connection.ts:72-83 | One COMMIT is sent, its answer is the result, and whatever it is the transaction and its client are gone |
| Connections.PgConnection.RollBack | src/driver/pg/connection.ts:85-96 | One ROLLBACK is sent, its answer is the result, and whatever it is the transaction and its client are gone |
| Connections.PgConnection.Close | src/driver/pg/connection.ts:110-128 | No client is held any more, and none was taken from the others |
| Connections.Connection.Connect | src/connection.ts:977-996 | One connection at a time; without auto-commit a new one starts a transaction; done if and only if the driver answered every call, which are opening, resolving and that begin |
| Connections.Connection.BeginTransaction | src/connection.ts:375-392 | The driver begins only at level one and a savepoint is set below; done if and only if every call was answered; without savepoints a nested begin fails with its level counted; without failures it is the machine's begin |
| Connections.Connection.CreateSavepoint | src/connection.ts:394-402 | Connects first; refused without savepoints; otherwise sets this savepoint, and is done if and only if every call was answered |
| Connections.Connection.ReleaseSavepoint | src/connection.ts:404-416 | Connects first; refused without savepoints; otherwise releases this savepoint, or sends nothing where the platform cannot, and is done if and only if every call was answered |
| Connections.Connection.RollbackSavepoint | src/connection.ts:418-426 | Connects first; refused without savepoints; otherwise rolls back to this savepoint, and is done if and only if every call was answered |
| Connections.Connection.UpdateTransactionStateAfterCommit | src/connection.ts:644-655 | One level down, and a new transaction without auto-commit |
| Connections.Connection.EndLevel | src/connection.ts:439-449 | COMMIT at level one and a release of the level's savepoint below; done if and only if the driver answered it |
| Connections.Connection.Commit | src/connection.ts:428-452 | Refused at level zero and when marked for rollback; otherwise one level down even when the statement fails or the platform has no savepoints; a COMMIT or release that fails is never answered as done, nor is a failed begin after it |
| Connections.Connection.RollBack | src/connection.ts:454-484 | Refused at level zero; at level one ROLLBACK and without auto-commit a begin, done if and only if both are answered, and the level ends in any case; an inner level ends if and only if its rollback is answered, and without savepoints never |
| Connections.Connection.SetRollbackOnly | src/connection.ts:486-492 | Marks an active transaction, and nothing else |
| Connections.Connection.CommitAll | src/connection.ts:657-666 | Ends; with auto-commit a success leaves no level; done only if every call was answered |
| Connections.Connection.ExecuteStatement | src/connection.ts:185-200 | Connects first; then this statement and no other; done if and only if every call was answered, and a failure keeps the level or loses the connection |
| Connections.Connection.SetAutoCommit | src/connection.ts:106-118 | Sets the flag and commits all levels |
| Connections.Connection.ConvertException | src/connection.ts:1018-1031 | Keeps level and flag unless the connection is lost, and with it the client its driver held |
| Connections.Connection.ResetConnectionState | src/connection.ts:1010-1016 | Drops the driver connection without releasing the client it may hold |
| Connections.Connection.BalancedUnlessLost | src/connection.ts:1018-1031 | At any time acquires equal releases plus the client held, if and only if no connection was dropped while its driver held a client |
| Connections.Connection.LoseClient | src/driver/pg/connection.ts:51-70 | A run of beginTransaction after which the pool is unbalanced: the client of a BEGIN that loses the connection is neither released nor held |
| Connections.Connection.Close | src/connection.ts:546-563 | What was not committed is gone; the client is released; done if and only if the driver closed |
| Connections.Connection.Run | src/connection.ts:375-484 | On any run with any failures a driver in a transaction means level at least one, the driver never begins twice, one client serves one transaction, and the pool is balanced if and only if no client was lost; as long as nothing fails the connection is the machine, and where nothing can fail a stack of snapshots |
| Replicas.PrimaryReadReplicaConnection.PerformConnect | src/connections/primary-read-replica-connection.ts:163-216 | Which connection is used, opened and recorded: inside a transaction only the primary; without keepReplica the primary takes the replica's place; nothing if and only if the opening fails |
| Replicas.PrimaryReadReplicaConnection.ConnectTo | src/connections/primary-read-replica-connection.ts:218-234 | Opens with the parameters of the name, or fails |
| Replicas.PrimaryReadReplicaConnection.Connect | src/connections/primary-read-replica-connection.ts:67-75 | Refuses a connection name, otherwise the current connection or a replica; without auto-commit it begins a transaction on the primary |
| Replicas.PrimaryReadReplicaConnection.EnsureConnectedToPrimary | src/connections/primary-read-replica-connection.ts:77-79 | Done if and only if the primary is open, and then it is the current connection |
| Replicas.PrimaryReadReplicaConnection.EnsureConnectedToReplica | src/connections/primary-read-replica-connection.ts:81-83 | The replica outside transactions, unless the primary has taken its place |
| Replicas.PrimaryReadReplicaConnection.ExecuteStatement | src/connections/primary-read-replica-connection.ts:85-93 | The statement is sent once, to the primary, and done if and only if it is answered; it runs inside a transaction only where one was open before |
| Replicas.PrimaryReadReplicaConnection.ExecuteQuery | src/connection.ts:167-183 | The read is sent to the connection already handed out; without one and with auto-commit to the replica, without auto-commit to the primary after a begin; done only if it is answered |
| Replicas.PrimaryReadReplicaConnection.SavepointStatement | src/connections/primary-read-replica-connection.ts:113-129 | Refused without savepoints; otherwise this statement on the primary at an unchanged level, done if and only if it is answered |
| Replicas.PrimaryReadReplicaConnection.BeginTransaction | src/connections/primary-read-replica-connection.ts:95-99 | BEGIN on the primary at level one and a savepoint below, done if and only if it is answered; the level is counted in any case unless the connection is lost |
| Replicas.PrimaryReadReplicaConnection.EndLevel | src/connection.ts:439-449 | COMMIT at level one and a release below, on the primary, done if and only if it is answered |
| Replicas.PrimaryReadReplicaConnection.Commit | src/connections/primary-read-replica-connection.ts:101-105 | Connects to the primary first, even without a transaction; at level one COMMIT and without auto-commit BEGIN, done if and only if both are answered; a release below |
| Replicas.PrimaryReadReplicaConnection.RollBack | src/connections/primary-read-replica-connection.ts:107-111 | Connects to the primary first, even without a transaction; at level one ROLLBACK and without auto-commit BEGIN, done if and only if both are answered; below, the level ends if and only if its rollback is answered |
| Replicas.PrimaryReadReplicaConnection.CommitAll | src/connection.ts:657-666 | Ends; a success leaves no level with auto-commit and one without |
| Replicas.PrimaryReadReplicaConnection.SetAutoCommit | src/connection.ts:106-118 | Sets the flag and commits what is open; begins nothing where nothing was |
| Replicas.PrimaryReadReplicaConnection.Close | src/connections/primary-read-replica-connection.ts:137-161 | Closes every open connection once, the current one first; all are forgotten if and only if all closed |
| SerialQueue.EveryRunIsSerial | src/driver/mssql/connection.ts:378-386 | In every interleaving from an empty queue at most one work runs, works start in call order, each after all earlier ones settled |
| SerialQueue.StepsComeToAnEnd | src/driver/mssql/connection.ts:378-386 | Every step but a new call lowers a bound on the steps left |
| SerialQueue.NothingIsLeftWaiting | src/driver/mssql/connection.ts:378-386 | Where nothing can happen any more all works have settled, whether earlier ones were rejected or not |
| SerialQueue.EveryRunSettles | src/driver/mssql/connection.ts:378-386 | A run from an empty queue that has come to its end has settled every work |
| Comparator.AddedAndChanged | src/schema/comparator.ts:160-179 | New columns are added, changed or unchanged by name |
| Comparator.Dropped | src/schema/comparator.ts:181-185 | Old columns without a new one of the name are dropped |
| Comparator.ApplyExplicitRenames | src/schema/comparator.ts:187-202 | Accounting is kept, every rename whose names are added and dropped is made, and no other |
| Comparator.Candidates | src/schema/comparator.ts:478-494 | Under each added name exactly the dropped columns equal to it, in their order |
| Comparator.DetectRenamedColumns | src/schema/comparator.ts:478-513 | A rename is detected only where the dropped column is the only equal one, and an added column with one candidate keeps it unless another took it |
| Comparator.CompareColumns | src/schema/comparator.ts:152-206 | Every column of both tables is accounted for exactly once, for any columnsEqual; an explicit rename is reported if and only if neither name is on both sides; where renames are detected a pair that equals each other and nothing else is reported, and an unasked rename is reported only there and only from the single equal column |
| Comparator.RenamedAccounts | src/schema/comparator.ts:187-202 | Turning an added and a dropped column into a change keeps the accounting |
| Comparator.AppliedDiffIsTheNewTable | src/schema/comparator.ts:152-206 | Applying the diff to the old columns gives the new ones |
| Comparator.ChainOfRenamesIsLost | src/schema/comparator.ts:187-202 | After b to c and a to b neither rename is reported |
| ForeignKeys.PairForeignKeys | src/schema/comparator.ts:279-317 | The loops that splice both lists end and compute the pairing |
| ForeignKeys.PairingConserves | src/schema/comparator.ts:279-317 | Dropped and kept keys are the old ones, added and kept keys the new ones, with multiplicity |
| ForeignKeys.PairingIsSettled | src/schema/comparator.ts:279-317 | Kept pairs agree in all parts of their definition, replaced pairs differ under one name, no two leftovers are equal or share a name |
| ForeignKeys.UnnamedKeyIsReplaced | src/schema/comparator.ts:296-312 | An unchanged key without a name is dropped and added again |
| ForeignKeys.KeptExactly | src/schema/comparator.ts:296-312 | For any lists: a key is dropped while an equal one is added if and only if some old key, at its turn, meets a different new key of its name first and that leaves a key equal to one of the two without a partner |
| ForeignKeys.EqualsBalance | src/schema/comparator.ts:279-317 | Both sides keep the same number of keys of every definition |
| ForeignKeys.OwnNamesAreKept | src/schema/comparator.ts:296-312 | For any lists: where no name stands for two different keys, no key is replaced and nothing equal is dropped and added |
| RenamedColumns.Table.RenameColumnIn | src/schema/table.ts:582-603 | The loop renames the column in every list |
| RenamedColumns.Table.RenameColumn | src/schema/table.ts:473-508 | The columns stay a bijection to the first ones, the record is where names differ, every list follows its columns; each refusal and what it leaves |
| RenamedColumns.MovedAfterRename | src/schema/table.ts:495-505 | The update of the record is right through chains, returns and freed names |
| RenamedColumns.RecordIsExact | src/schema/table.ts:473-508 | After any successful renames of a fresh table the record holds exactly the columns that ended under another name |
| SqliteAlter.GetSimpleAlterTable | src/platforms/sqlite-platform.ts:273-347 | Columns are added one by one exactly when nothing else changes and no definition needs a rebuild |
| SqliteAlter.BuildCopyColumnMap | src/platforms/sqlite-platform.ts:517-587 | Every column that is not dropped is copied to what it becomes |
| SqliteAlter.ImplicitRenames | src/platforms/sqlite-platform.ts:618-637 | Each dropped column in turn takes the first added column of its definition that is left; pairs share a definition and no column is in two |
| SqliteAlter.NoPairIsMissed | src/platforms/sqlite-platform.ts:618-637 | A dropped column without a partner differs from every added column that is left |
| SqliteAlter.BuildRebuildTable | src/platforms/sqlite-platform.ts:595-698 | The columns are what the old ones become, in their order, and then the other new ones |
| SqliteAlter.GetAlterTable | src/platforms/sqlite-platform.ts:213-271 | The statements of either way, with the renames that the definitions imply |
| SqliteMigration.PlannedIsTheNewTable | src/platforms/sqlite-platform.ts:595-698 | Every new column is planned exactly once, and nothing else is |
| SqliteMigration.RowIsMigrated | src/platforms/sqlite-platform.ts:237-271 | Through the temporary table every kept or renamed column holds its old value and every other one its default |
| SqliteMigration.ImplicitRenameLosesData | src/platforms/sqlite-platform.ts:618-637 | An added column that takes the place of a dropped one of its definition holds its default in every row |
| SqliteMigration.RunCopies | src/platforms/sqlite-platform.ts:237-271 | The five statements succeed, replace the table and leave no temporary one |
| SqliteMigration.RebuildKeepsData | src/platforms/sqlite-platform.ts:213-271 | For any accounted diff the rebuild yields the planned columns, and keeps the rows if and only if a column is kept or there are none |
| SqliteAddColumn.RunAdds | src/platforms/sqlite-platform.ts:304-346 | ADD COLUMN statements in a row append the columns with their defaults |
| SqliteAddColumn.AddColumnRefinesRebuild | src/platforms/sqlite-platform.ts:213-347 | Adding columns one by one gives the names, order and rows of the rebuild |
| SqliteAddColumn.Migrate | src/schema/comparator.ts:152-206 | From two tables over their diff to statements that keep the data in every ready database, if and only if the table keeps its name or is rebuilt |
| Joins.EmitIsGood | src/query/query-builder.ts:740-766 | The recursion ends for every graph; what it writes is registered, new, unrepeated, after its parent, and complete below its root |
| Joins.EveryJoinOnce | src/query/query-builder.ts:662-693 | On success every registered join is written exactly once, after the alias it hangs from, and no alias is repeated |
| JoinTheorems.SucceedsExactly | src/query/query-builder.ts:662-693 | Success if and only if join aliases are distinct, everything that joins hang from is reachable, and a table that repeats a name has no joins and comes after the join of that name |
| JoinTheorems.NamesDifferExactly | src/query/query-builder.ts:662-693 | On success all tables and joins have different names if and only if the tables have names of their own |
| JoinTheorems.SucceedsWhenDistinctAndReachable | src/query/query-builder.ts:662-693 | Where the tables have names of their own, success if and only if the aliases are distinct and everything is reachable |
| JoinTheorems.LaterTableMayRepeatAnAlias | src/query/query-builder.ts:666-680 | A table of a later FROM clause is not compared with earlier join aliases |
| JoinClauses.JoinIsWritten | src/query/query-builder.ts:751-755 | A join adds " INNER JOIN ", " LEFT JOIN " or " RIGHT JOIN ", its table and its alias, and " ON " with the condition where there is one |
| JoinClauses.FromIsWritten | src/query/query-builder.ts:666-678 | A FROM clause is the table, and the alias where it differs |
| QueryBuilders.QueryBuilder.Join | src/query/query-builder.ts:361-398 | Registers a join behind those of its alias |
| QueryBuilders.QueryBuilder.GetSqlForJoins | src/query/query-builder.ts:740-766 | The recursive writer with its shared set gives the text of the emission, or its error |
| QueryBuilders.QueryBuilder.GetFromClauses | src/query/query-builder.ts:662-693 | One clause per table, its text and then that of its joins in order, or the error |
| Predicates.TextMeansPredicate | src/query/expression/composite-expression.ts:55-60 | The text of a predicate, read with AND tighter than OR, has its truth value under every assignment |
| QueryBuilders.QueryBuilder.CreatePredicate | src/query/query-builder.ts:579-588 | Holds when all parts hold |
| QueryBuilders.QueryBuilder.AppendToPredicate | src/query/query-builder.ts:590-620 | Holds when the old and the new parts do, flattened or not |
| QueryBuilders.QueryBuilder.Where | src/query/query-builder.ts:407-415 | Replaces the condition |
| QueryBuilders.QueryBuilder.AndWhere | src/query/query-builder.ts:417-430 | The condition and the new predicates |
| QueryBuilders.QueryBuilder.OrWhere | src/query/query-builder.ts:432-445 | The condition or one of the new predicates |
| QueryBuilders.QueryBuilder.Run | src/query/query-builder.ts:407-445 | Any run of calls holds their left-to-right fold, and so does its text |
| EnumDeclarations.ParseEnumColumnValues | src/platforms/_internal/metadata-provider-utils.ts:701-778 | The loops compute the values, or nothing where the text is malformed |
| EnumDeclarations.ScanQuoted | src/platforms/_internal/metadata-provider-utils.ts:730-758 | One quoted value with its escapes |
| EnumDeclarations.QuotedIsEscaped | src/platforms/abstract-mysql-platform.ts:167-169 | Doubling backslashes and then quotes escapes each character |
| EnumDeclarations.EnumRoundTrip | src/platforms/abstract-mysql-platform.ts:83-90 | Every non-empty list of strings comes back from its declaration |
| EnumDeclarations.AnyEnumReadsBack | src/platforms/_internal/metadata-provider-utils.ts:701-778 | Every non-empty list of strings comes back from a declaration in any case, with white space before the parenthesis and around the commas |
| EnumDeclarations.OtherTypesAreNoEnums | src/platforms/_internal/metadata-provider-utils.ts:706-709 | A type that does not begin with enum and a parenthesis, or does not end with one, has no values |
| EnumDeclarations.UnclosedValueIsKept | src/platforms/_internal/metadata-provider-utils.ts:730-761 | A value without its closing quote goes to the end, where a backslash stands for itself or for the character after it, and two quotes for one |
| DefaultLiterals.UnwrapDefaultExpressionParentheses | src/platforms/_internal/metadata-provider-utils.ts:394-450 | The loop takes off all enclosing parentheses |
| DefaultLiterals.StripPostgreSqlCastSuffix | src/platforms/_internal/metadata-provider-utils.ts:452-492 | The scan finds the first cast outside literals |
| DefaultLiterals.Normalize | src/platforms/_internal/metadata-provider-utils.ts:331-392 | All branches of the normalisation |
| DefaultLiterals.LiteralIsRecovered | src/platforms/_internal/metadata-provider-utils.ts:331-367 | Every string is recovered from its base literal in any parentheses and with a cast, on every vendor but MariaDB |
| DefaultLiterals.PrefixedLiteralIsRecovered | src/platforms/_internal/metadata-provider-utils.ts:494-560 | On every vendor but MariaDB a string is recovered from its literal behind N, and from its escaped literal behind E, in either case and with a cast |
| DefaultLiterals.BareIsKept | src/platforms/_internal/metadata-provider-utils.ts:331-392 | A value that is no literal comes back without parentheses and cast; NULL in any case is no value exactly under dflt_value, and under column_default but on MySQL |
| DefaultLiterals.BlankIsEmpty | src/platforms/_internal/metadata-provider-utils.ts:348-352 | A blank value is the empty string |
| DefaultLiterals.TwoGroupsStay | src/platforms/_internal/metadata-provider-utils.ts:394-450 | A group of parentheses that closes before the end is not taken off |
| DefaultLiterals.HalfCastStays | src/platforms/_internal/metadata-provider-utils.ts:480-485 | A cast with nothing on one side stays |
| DefaultLiterals.MySqlRecoversItsOwnLiteral | src/platforms/abstract-mysql-platform.ts:167-169 | From the literal of MySQL's own platform a string comes back on MySQL if and only if it has no backslash |
| DefaultLiterals.MariaDbRecoversBaseLiteral | src/platforms/_internal/metadata-provider-utils.ts:364-367 | On MariaDB if and only if the string has no known escape sequence |
| DefaultLiterals.MariaDbRecoversItsOwnLiteral | src/platforms/abstract-mysql-platform.ts:167-169 | From the literal of its own platform every string comes back on MariaDB |
| DefaultLiterals.MariaDbRecoversEscapes | src/platforms/_internal/metadata-provider-utils.ts:562-619 | From a literal that escapes every special character any string comes back on MariaDB |
| Crc32.BuildTable | src/schema/abstract-asset.ts:110-124 | Entry n is n after eight shifts |
| Crc32.ShiftIsLinear | src/schema/abstract-asset.ts:116-118 | A shift is linear over exclusive or |
| Crc32.TableStepIsEightBitSteps | src/schema/abstract-asset.ts:99-108 | One table step is eight steps with the message bits |
| Crc32.Crc32Hex | src/schema/abstract-asset.ts:99-108 | The table-driven loop gives the CRC-32 of section 8 of RFC 1952, bit by bit |
| Crc32.CheckValue | src/schema/abstract-asset.ts:99-124 | The digits from 1 to 9 have the check value cbf43926 |
| Crc32.HexReadsBack | src/schema/abstract-asset.ts:107 | The hexadecimal text reads back as the number |
| Crc32.OneDifferenceShows | src/schema/abstract-asset.ts:87-108 | Names that differ in one code unit have the same hash if and only if its low byte is the same |

## Left out

- I/O, clocks, pools, event listeners and the driver packages: nondeterministic choices and counters stand for them.
- Asynchronous interleaving inside the connection and the replica wrapper: each public method is one sequential step; only the serial queue is a concurrency model.
- Connections.Connection.Run: runs of begin, write, commit, rollBack, setRollbackOnly, setAutoCommit and connect; `transactional`, explicit user savepoints and other drivers than pg are not part of the runs, the pool has no other users, and what the data is after a failure is left open.
- Comparator.CompareColumns: indexes, the null result for tables without changes, and the comparison of single columns, which is a parameter.
- The detection of renamed indexes, sequences and schemas, and `Index.isFulfilledBy` with its helpers: shorter cases of the same bookkeeping.
- SqliteMigration.RebuildKeepsData: conversions of values by a changed column type, constraints, index statements, the side effects of DROP TABLE on foreign keys, and quoted or schema-qualified table names.
- SqliteAddColumn.Migrate: tables without columns, which no database has.
- RenamedColumns.Table.RenameColumn: prefix lengths of index columns, and any law after a rename that was refused because the new name exists.
- QueryTheorems.NamedCompilationKeepsMeaning: placeholders that touch a question mark or another placeholder, or are followed by a word or a bracket, and empty arrays after a colon are outside the law; the edge cases show why, but the exclusion is not exact.
- Names and a record of types beside a positional list: the laws speak of the values that the code binds (`QueryTheorems.BoundGroups`), not of those that the names and types ask for.
- QueryDrivers.MssqlCompilationKeepsMeaning: the type casts that the mssql driver adds to its parameters, and SQL with backslashes, which its pass reads in another mode.
- QueryDrivers.PgCompilationKeepsMeaning: SQL with backslashes, which the pg pass reads in another mode.
- QueryCompiler.ExpandArrayParameters.AcceptParameter: strings under an array type hold no characters beyond the basic plane, for which the source writes two placeholders and one value.
- Predicates.TextMeansPredicate: text is a sequence of tokens; anything that binds tighter than AND, BETWEEN included, is one atom.
- QueryBuilders.QueryBuilder.GetFromClauses: the rest of the SELECT statement and the cache of its text.
- Strings are sequences of Unicode characters, except in the checksum, where they are code units; lower-casing and quoting of asset names happen before names enter the model.
- The order in which JavaScript lists integer-like object keys, and keys inherited by plain objects.
- Metadata queries, keyword lists, exception classes, portability wrappers, connection strings, dates and JSON.
