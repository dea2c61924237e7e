# cartel: verified cores

cartel is a set of Rust database drivers (PostgreSQL, Redis, SQLite) with a compile-time query
compiler. This project models the self-contained cores of that code in Dafny and proves what they
are for. Check it with `dafny verify dfyconfig.toml`.

**Passwords.** `CanonicalOrder` defines canonical order (D109 of section 3.11 of the Unicode
Standard) by adjacent exchanges and shows that it is unique and that insertion computes it.
`SegmentSort` is the counting sort into the scratch tail, `Composition` is canonical composition
(D115, D117) with the declarative "blocked" test and the one-class shortcut, and `ComposeInPlace`
is the in-place algorithm over an array. `Password` is SASLprep (RFC 4013): the counting pass with
its scratch bound, the second pass and the fast path. `TextEncoding` writes the result as UTF-8
into an allocation of exactly the measured size.

**Query compiler.** `Syntax` is the closure language, `QueryScope` the row variables and their
aliases, `Translation` what a closure compiles to, and `PredicateWriter` the recursive methods that
append to one buffer and cut it back. `SqlText` has the tokens, the printer and three-valued
evaluation; `SqlReader` reads text back with SQL precedence. `Meaning` evaluates closures directly,
on their syntax and with lexically bound row variables, and proves that the compiled text has the
same value for all tables and all rows. `Acceptance` is the grammar of the closures that compile;
the compiler accepts these and no others. Text is read as what it is: SQLite has the numbers one
and zero for truth values, and two operators of PostgreSQL are written `@>`. The theorems hold for
every database that understands this (`Meaning.Understands`), which `Meaning.WrittenMeans` and
`Meaning.SpellingMeans` show to be exactly what they need.
`JoinedWhere` is the WHERE clause of a joined UPDATE or DELETE. `SetOps` collects, prints and reads
set-operation chains for both dialects. `Captures` numbers parameters while clauses are rendered in
an order that is not text order, and builds both bind lists; `Clauses` reads the rendered clauses
back; `BoundQuery` puts this together with `Meaning` and with `JoinedWhere`. `Quoting` undoes
identifier and string quoting.

**Protocol and runtime.** `Diagnostic` has the checked parser of PostgreSQL diagnostics and its
unchecked replay. `FloatText` and `IntegerText` are the number texts of the Redis driver and the
shared digit printer. `RequestQueue` is the weighted fair queue with its detached guards and the
handoff to a reply lane. `Deadline` and `TransactionFinish` are the deadline guards and the fiber
that ends a transaction. `GroupRows` takes the rows out of a Sync group or restores them,
`FailureIndex` is the cached lowest failure, and `ArrayReader` reads array elements. `Sequences`
and `Wrappers` hold what all modules share.

Functions of the Unicode, bidirectional and stringprep tables, SQL scalar operations and
aggregates, allocator verdicts, clock readings and every answer of the runtime are parameters.

Three properties that one might expect do not hold of the code, and the model says exactly when
they do:

- The text of a joined UPDATE or DELETE is the conjunction of its ON conditions and its filter if
  and only if none of them is a top-level `||` (`JoinedWhere.ReadsAsConjunction`);
  `JoinedWhere.TopOrSelectsRejectedRow` is a statement that changes a row its filter rejects.
- Not every chain that is parsed can be written: the SQLite keyword table has no entry for
  `intersect_all` and `except_all` (`SetOps.SqliteLacksAll`). `SetOps.Build` refuses exactly these,
  and all that it writes reads back as the chain (`SetOps.PgReadsFold`, `SetOps.SqliteReadsFold`).
- The byte that `parse_float` reports for text that is not UTF-8 is the byte at which the text
  stops being a float if and only if the automaton is not dead after everything before it
  (`FloatText.Utf8ReportIsExact`, with an example in `FloatText.Utf8ReportCanBeLate`).

## Model

| member | source | states |
|---|---|---|
| CanonicalOrder.CanonicalOrderIsUnique | pg/src/scram/password.rs:116-166 | a text is the canonical order of another exactly when it is its stable order by class within segments, so there is exactly one |
| CanonicalOrder.OrderIsOrdered | pg/src/scram/password.rs:116-166 | the computed order leaves no reorderable pair |
| CanonicalOrder.OrderIsReached | pg/src/scram/password.rs:116-166 | the computed order is reached by exchanging adjacent reorderable pairs only (D108) |
| CanonicalOrder.OrderSplitsAtStarter | pg/src/scram/password.rs:127-141 | ordering segment by segment orders the whole text |
| SegmentSort.BucketsAreOrder | pg/src/scram/password.rs:145-165 | taking the classes in increasing order, each in text order, is canonical order of a segment |
| SegmentSort.CountClasses | pg/src/scram/password.rs:145-150 | counts the characters of every class |
| SegmentSort.PrefixSums | pg/src/scram/password.rs:151-156 | each class starts where the smaller classes end |
| SegmentSort.PlaceOne | pg/src/scram/password.rs:157-164 | one character goes to the next free slot of its class, inside the scratch tail |
| SegmentSort.Scatter | pg/src/scram/password.rs:145-165 | fills every scratch slot once; the scratch holds the segment in canonical order |
| Composition.PreviousDecidesBlocked | pg/src/scram/password.rs:167-186 | comparing with the class of the last kept character alone decides D115 "blocked" |
| Composition.JoinKeepsTracking | pg/src/scram/password.rs:167-186 | composing with the starter keeps what makes that comparison valid |
| Composition.KeepKeepsTracking | pg/src/scram/password.rs:167-186 | so does keeping a character: kept classes after the starter never decrease |
| ComposeInPlace.ScanSegment | pg/src/scram/password.rs:128-140 | finds the end of the segment and whether it is disordered |
| ComposeInPlace.TakeOne | pg/src/scram/password.rs:167-186 | one step of composition in place refines the declarative step |
| ComposeInPlace.ComposeRun | pg/src/scram/password.rs:167-186 | composing a run in place writes the declarative composition; writes never pass the reads |
| ComposeInPlace.ComposeSegment | pg/src/scram/password.rs:127-188 | one segment, ordered through the scratch tail if needed, then composed |
| ComposeInPlace.ComposeAll | pg/src/scram/password.rs:116-192 | leaves exactly the normalization that section 3.11 prescribes, for every text and sufficient scratch |
| ComposeInPlace.NoRoomMeansOrdered | pg/src/scram/password.rs:117-128 | without scratch every segment is already in order, which justifies the ordered-text shortcut |
| ComposeInPlace.WholeIsOrdered | pg/src/scram/password.rs:117-128 | and then the whole text is |
| Password.Tally.Count | pg/src/scram/password.rs:61-76 | the counters of the first pass after one more character |
| Password.Tally.CountAll | pg/src/scram/password.rs:61-76 | the same over a whole decomposition |
| Password.Tally.Finish | pg/src/scram/password.rs:81-84 | the scratch length is that of the longest disordered segment |
| Password.LongestIsZeroIffOrdered | pg/src/scram/password.rs:49-87 | it is zero exactly when nothing is disordered |
| Password.LongestIsUnique | pg/src/scram/password.rs:49-87 | there is one such length |
| Password.MapAll | pg/src/scram/password.rs:103-114 | mapping by section 2.1 of RFC 4013; nothing is left that should be mapped away |
| Password.MappedOne | pg/src/scram/password.rs:103-114 | what one character is mapped to, in each of the four cases |
| Password.MappedParts | pg/src/scram/password.rs:103-114 | text is mapped character by character, in order |
| Password.MappedIsClean | pg/src/scram/password.rs:103-114 | mapped text has no character that is mapped to nothing and no space but U+0020 |
| Password.DecomposedParts | pg/src/scram/password.rs:85-99 | text is decomposed character by character, in order |
| Password.Survey | pg/src/scram/password.rs:42-84 | goes on exactly when nothing is prohibited, unassigned or against the bidi rule; leaves exact length and scratch |
| Password.Fill | pg/src/scram/password.rs:85-99 | the second pass writes exactly the admitted number of characters and leaves the scratch free |
| Password.Prepare | pg/src/scram/password.rs:41-101 | SASLprep, or the input unchanged where RFC 4013 rejects it; fails exactly when the decomposition cannot be counted, or not be allocated with its scratch, and with which error |
| Password.PlainIsPrepared | pg/src/scram/password.rs:20-26 | text without control characters in ASCII is its own preparation |
| Password.TryPrepare | pg/src/scram/password.rs:20-30 | the fast path gives the result of the full preparation, and cannot fail |
| TextEncoding.EncodedDecodes | pg/src/scram/password.rs:206-232 | the bytes written are valid UTF-8 and decode to the same characters |
| TextEncoding.Utf8IsEncoding | pg/src/scram/password.rs:206-232 | bytes are valid UTF-8 if and only if they are the encoding of some characters |
| TextEncoding.NoLongerPrefix | redis/src/value/scalar.rs:39-48 | the offset at which UTF-8 fails is the end of the longest valid prefix |
| TextEncoding.Encode | pg/src/scram/password.rs:206-232 | every fragment lands inside the measured allocation and together they fill it |
| QueryScope.QualifierInjective | gen/src/shape/mod.rs:126-130 | aliases of different levels or positions differ |
| QueryScope.QualifierText | gen/src/shape/mod.rs:126-130 | an alias is the letter q, the level, an underscore and the position |
| QueryScope.NestedIsLayered | gen/src/shape/mod.rs:162-166 | a subquery's aliases live one level deeper |
| QueryScope.DeeperIsFresh | gen/src/pred/layouts.rs:125-157 | nothing in scope carries an alias of a deeper level |
| QueryScope.AliasesNeverClash | gen/src/pred/layouts.rs:130-157 | two variables in scope that share an alias are the same variable |
| PredicateWriter.WriteExpr | gen/src/pred/expr.rs:279-398 | appends exactly the printed value expression, or says it is none |
| PredicateWriter.ParseInto | gen/src/pred/expr.rs:262-278 | appends a value expression, or leaves the buffer exactly as it was |
| PredicateWriter.WriteAggregate | gen/src/pred/subquery.rs:38-88 | appends a correlated scalar aggregate |
| PredicateWriter.WriteExists | gen/src/pred/subquery.rs:8-36 | appends EXISTS or NOT EXISTS over the nested source |
| PredicateWriter.BuildInto | gen/src/pred/mod.rs:61-312 | appends exactly the printed condition, or reports the same error as the specification |
| PredicateWriter.WriteJunction | gen/src/pred/mod.rs:108-121 | both sides of a connective in their own parentheses |
| PredicateWriter.WriteCompare | gen/src/pred/mod.rs:122-141 | comparison operators and their operands in order |
| PredicateWriter.WriteMethod | gen/src/pred/mod.rs:237-299 | method conditions: null tests, lists, operators |
| SqlReader.ThenIsPrint | gen/src/pred/mod.rs:61-312 | text in the form the reader follows is the printed text |
| SqlReader.ReadPrinted | gen/src/pred/mod.rs:61-312 | printed text read with SQL precedence is the tree it was printed from |
| Meaning.BindingsAgree | gen/src/pred/mod.rs:323-339 | bound rows under aliases are the rows of the closure variables |
| Meaning.EnterNested | gen/src/pred/layouts.rs:125-157 | entering a subquery keeps that: inner variables shadow outer ones |
| Meaning.WrittenMeans | sqlite/src/dsl/sql.rs:13-14 | writing truth values as one and zero keeps every literal exactly when the database reads these numbers as true and false |
| Meaning.SpellingMeans | pg/src/dsl/sql.rs:15-19 | writing two operators as `@>` keeps every operator exactly when the database gives both the same answers |
| Meaning.CallSelects | gen/src/parse/sources.rs:155-190 | parsing a filtered table keeps its table and the rows its closure selects |
| Meaning.SourceSelects | gen/src/parse/sources.rs:10-94 | parsing the source of `exists` keeps the rows that its syntax selects: of a table, of a CTE, of a filtered CTE |
| Meaning.ScalarPreserved | gen/src/pred/expr.rs:279-398 | a compiled value has the closure's value |
| Meaning.AggregatePreserved | gen/src/pred/subquery.rs:38-88 | so have count, sum, avg, min and max over a filtered table, for all tables |
| Meaning.ExistsPreserved | gen/src/pred/subquery.rs:8-36 | an existence test is true exactly when its closure selects a row, by the syntax of its source |
| Meaning.PredicatePreserved | gen/src/pred/mod.rs:61-312 | and every predicate, through any nesting |
| Meaning.CompiledTextMeansClosure | gen/src/pred/mod.rs:50-312 | the text read back evaluates to the closure's value, for all tables and rows |
| Acceptance.ConditionCompiles | gen/src/pred/mod.rs:61-312 | a closure compiles if and only if it is in a grammar that mentions no SQL |
| Acceptance.ValueCompiles | gen/src/pred/expr.rs:279-398 | so does a value expression |
| Acceptance.SourceCompiles | gen/src/pred/subquery.rs:8-36 | and a source of `exists` |
| Acceptance.ColumnedCompiles | gen/src/pred/expr.rs:223-245 | which values count as having a column when two columns are compared |
| Acceptance.CompareRefused | gen/src/pred/mod.rs:122-141 | a comparison is refused as a pair of columns, or for its right side |
| Acceptance.OperatorRefused | gen/src/pred/mod.rs:267-299 | an operator is refused by the backend first, then for its argument |
| Acceptance.ShapeRefused | gen/src/pred/mod.rs:61-312 | what is refused for its shape alone, and how |
| Acceptance.SourceRefused | gen/src/parse/sources.rs:10-94 | the same for sources of `exists` |
| Acceptance.BackendOperators | gen/src/backend/mod.rs:250-272 | PostgreSQL has all method operators but GLOB; SQLite has the comparisons, LIKE and GLOB |
| Acceptance.Arities | gen/src/pred/expr.rs:316-328 | how many arguments each function takes |
| Acceptance.AcceptedTextMeansClosure | gen/src/pred/mod.rs:50-312 | every closure of the grammar compiles to text with its value, and no other closure compiles |
| JoinedWhere.AppendWhere | gen/src/plan/write/update.rs:114-119 | glues ON conditions and filter with AND and nothing else |
| JoinedWhere.ReadsAsConjunction | gen/src/plan/write/update.rs:114-119 | the clause reads as the conjunction of its parts if and only if no part is a top-level OR |
| JoinedWhere.SelectsConjunction | gen/src/plan/write/update.rs:151-156 | then it selects exactly the rows that satisfy every part |
| JoinedWhere.TopOrSelectsRejectedRow | gen/src/plan/write/update.rs:114-119 | with one it can select a row that the filter rejects: two closures for which it does |
| JoinedWhere.TopOrCompiles | gen/src/pred/mod.rs:193-201 | parentheses and blocks around a closure do not hide a top-level `||` |
| JoinedWhere.GluedIsParts | gen/src/plan/write/update.rs:151-156 | the glued texts are those of the compiled parts |
| JoinedWhere.JoinedTextMeansClosures | gen/src/plan/write/update.rs:114-119 | without a top-level OR the text selects a row exactly when every ON closure and the filter closure are true on it |
| SetOps.CollectCalls | gen/src/parse/branches.rs:10-38 | collects the calls from the outside in and reverses them |
| SetOps.ParseSet | gen/src/parse/branches.rs:10-56 | accepts exactly the chains that denote a tree of branches; folding the result from the left is that tree; otherwise which of the two errors |
| SetOps.ValidateBranches | gen/src/plan/read/set.rs:131-163 | reports the first branch with another table or with joins, counted from 1 |
| SetOps.Build | gen/src/plan/read/set.rs:35-66 | the printed text, branch by branch; reads back as the fold of the branches with their filters; refused exactly when an operator has no keyword, and then the first one is reported |
| SetOps.BodyIsBalanced | gen/src/plan/read/set.rs:53-62 | a branch ends where its filter ends, whatever the filter is |
| SetOps.BodyReads | gen/src/plan/read/set.rs:53-62 | a branch reads back as its table, its alias, and its filter or no filter |
| SetOps.PrintedGroups | gen/src/plan/read/set.rs:35-66 | the leading parentheses and the closes after each branch group the branches to the left |
| SetOps.PgReadsFold | gen/src/plan/read/set.rs:35-66 | PostgreSQL text of any length reads back as the left-to-right fold of its branches, filters included, although INTERSECT binds tighter |
| SetOps.SqliteReadsFold | gen/src/plan/read/set.rs:35-66 | whatever is written for SQLite, without parentheses, reads back as the same fold |
| SetOps.SqliteLacksAll | sqlite/src/dsl/sql.rs:1-14 | chains that are parsed and have PostgreSQL text, but no SQLite text |
| SetOps.TextUpToIsText | gen/src/plan/read/set.rs:39-66 | writing link after link is the whole text |
| SetOps.PgNeedsGroups | gen/src/plan/read/set.rs:36-39 | without the grouping parentheses PostgreSQL reads the fold if and only if no INTERSECT follows a UNION or EXCEPT |
| SetOps.TextIsPaired | gen/src/plan/read/set.rs:35-66 | parentheses balance in both dialects |
| Captures.State.Intern | gen/src/pred/sql.rs:11-21 | finds a parameter by its unraw name or appends it; captures stay distinct |
| Captures.InternedAdds | gen/src/pred/sql.rs:11-21 | rendering adds nothing but the parameters of the text and drops none |
| Captures.State.Render | gen/src/pred/sql.rs:48-71 | numbers every parameter; the text is right under these captures |
| Captures.NumbersAreFinal | gen/src/pred/sql.rs:48-71 | and under any later ones: rendering more never changes a written number |
| Captures.PlaceholderReads | gen/src/backend/mod.rs:321-347 | a placeholder reads back as its number, with the ltree cast exactly for ltree parameters |
| Captures.ShownDenotes | gen/src/backend/mod.rs:321-329 | placeholder k denotes final capture k - 1, the parameter it was written for |
| Captures.RunDenotes | gen/src/plan/mod.rs:66-73 | the same for everything emitted over any sequence of renders |
| Captures.State.RenderInteger | gen/src/plan/read/qualify.rs:169-187 | LIMIT and OFFSET values; a parameter is noted as used for that bound |
| Captures.FirstUseDecides | gen/src/plan/mod.rs:40-48 | after any uses as bounds, a parameter has the role of its first use, and one that was never used has none |
| Captures.BoundsNoted | gen/src/plan/read/qualify.rs:205-240 | of a query's bounds LIMIT is noted before OFFSET, each as what it is |
| Captures.HeadNoted | gen/src/plan/read/window.rs:234-252 | a window function's offset is noted as an OFFSET |
| Captures.State.MarkNonnegative | gen/src/plan/mod.rs:40-48 | a parameter gets a role when it has none, and no other parameter is touched |
| Captures.State.RenderSpec | gen/src/plan/read/window.rs:353-389 | numbered in chain order, written with all groups before all orders |
| Captures.State.RenderHead | gen/src/plan/read/window.rs:234-252 | the window function and its arguments; notes the offset parameter as a bound |
| Captures.State.RenderWindow | gen/src/plan/read/window.rs:392-433 | the whole window expression, with the same note |
| Captures.State.RenderLimit | gen/src/plan/read/qualify.rs:205-220 | SQLite gets LIMIT -1 exactly for an OFFSET without a LIMIT; a LIMIT parameter is noted as a bound |
| Captures.State.RenderQualify | gen/src/plan/read/qualify.rs:87-109 | ORDER BY, LIMIT, OFFSET and lock in this order; bounds noted with LIMIT before OFFSET |
| Captures.State.RenderAssigns | gen/src/plan/write/update.rs:97-104 | column assignments in order |
| Captures.State.RenderUpdate | gen/src/plan/write/update.rs:90-119 | the filter is numbered before the assignments written ahead of it; the first parameter in an ON condition is refused |
| Captures.State.RenderEach | gen/src/plan/write/update.rs:177-243 | arrays are numbered first and written between assignments and filter |
| Captures.JoinTokens | gen/src/pred/sql.rs:73-87 | succeeds exactly without parameters, and otherwise names the first one |
| Captures.SqliteBinds | gen/src/dialect/sqlite/params.rs:9-47 | the nested pairs hold capture k at position k with its role, or the first unknown capture from the end is reported |
| Captures.BoundsAreChecked | gen/src/dialect/sqlite/params.rs:15-47 | position k is checked as what its parameter is first used as in a LIMIT or OFFSET, and plain when it is used in none |
| Captures.PgBinds | gen/src/dialect/pg/mod.rs:80-117 | the argument written at position k is the parameter of capture k; at most 32767; otherwise the first unknown capture is reported |
| Clauses.JoinedReads | gen/src/plan/read/qualify.rs:91-105 | a written list reads back as its items in order, each with its direction |
| Clauses.QualifyReads | gen/src/plan/read/qualify.rs:87-109 | order, limit and offset are read from the text in either dialect; SQLite's LIMIT -1 limits nothing |
| Clauses.PartsSeparate | gen/src/plan/read/window.rs:353-389 | the groups and orders of a window are those of its calls, in order |
| Clauses.WindowReads | gen/src/plan/read/window.rs:392-433 | a window reads back: its function with arguments and offset, its groups, its orders |
| Clauses.AssignsRead | gen/src/plan/write/update.rs:97-104 | every column is assigned its own value |
| Clauses.UpdateReads | gen/src/plan/write/update.rs:94-119 | an UPDATE reads back: table, assignments, joined tables, and the whole condition |
| Clauses.EachReads | gen/src/plan/write/update.rs:177-243 | so does a bulk UPDATE, with every array in order |
| BoundQuery.RenderedIsReceived | gen/src/backend/mod.rs:321-329 | replacing placeholders by bind positions gives back the compiled text |
| BoundQuery.BoundTextMeansClosure | gen/src/plan/read/filter.rs:4-13 | a predicate rendered anywhere in a statement is received with the closure's value |
| BoundQuery.UpdateIsReceived | gen/src/plan/write/update.rs:113-119 | what a rendered UPDATE has after WHERE is received as its ON conditions and its filter joined with AND |
| BoundQuery.JoinedUpdateMeansClosures | gen/src/plan/write/update.rs:90-119 | the WHERE of a rendered UPDATE is true of exactly the rows on which every ON closure and the filter closure are true |
| BoundQuery.SqliteInOrder | gen/src/dialect/sqlite/params.rs:9-47 | the SQLite bind list is in capture order |
| Quoting.Quoted | gen/src/ext.rs:291-315 | quotes doubled, a dot closes one name and opens the next |
| Quoting.QuotedReads | gen/src/ext.rs:291-315 | the quoted form reads back as the name split at its dots, for all strings |
| Quoting.QuotedIsInjective | gen/src/ext.rs:291-315 | no two names are quoted alike |
| Quoting.DelimitedReads | gen/src/pred/literal.rs:47-50 | a rendered string literal reads back as its value |
| Quoting.WriteName | pg/src/api/request/mod.rs:84-105 | splitting at quotes and joining with doubled quotes writes the delimited name |
| Diagnostic.TryNumber | pg/src/reply/context.rs:150-202 | exactly the nonzero 32-bit digit strings; otherwise the first failing byte, empty or zero |
| Diagnostic.ReplayNumber | pg/src/reply/raw.rs:82-89 | the same value in 32-bit arithmetic, without overflow and never zero |
| Diagnostic.SetField | pg/src/reply/context.rs:102-137 | which context field a kind sets, or which number it belongs to |
| Diagnostic.TryCode | pg/src/reply/code.rs:18-35 | five upper-case letters or digits; characters are checked before the length |
| Diagnostic.Parts.TrySet | pg/src/reply/server.rs:223-236 | takes a field, checking a number |
| Diagnostic.Parts.Set | pg/src/reply/server.rs:185-197 | takes a field without checking anything |
| Diagnostic.Parts.TryFinish | pg/src/reply/server.rs:238-263 | severity, code and message or the first that is missing or wrong |
| Diagnostic.Parts.Finish | pg/src/reply/server.rs:199-210 | the required fields are set whenever it is called |
| Diagnostic.SqlstateBytes | pg/src/reply/code.rs:21 | what a code may be made of |
| Diagnostic.EveryFieldIsSaid | pg/src/reply/server.rs:90-147 | no recognized field is lost: each is where it belongs, and the severity that is not localized wins |
| Diagnostic.NothingElseIsSaid | pg/src/reply/context.rs:102-137 | and nothing is said that was not sent |
| Diagnostic.CompleteSays | pg/src/reply/server.rs:238-263 | an accepted diagnostic has a severity and a code of five capital letters and digits |
| Diagnostic.RecognizedKinds | pg/src/reply/server.rs:267-306 | which kinds are recognized, and the bit of each |
| Diagnostic.MarkBit | pg/src/reply/server.rs:134-142 | the bit mask holds exactly the recognized kinds seen |
| Diagnostic.BitsDiffer | pg/src/reply/server.rs:267-306 | eighteen kinds, eighteen bits |
| Diagnostic.TakeField | pg/src/reply/server.rs:95-145 | splits and checks one field; a refusal names the right byte |
| Diagnostic.TryParse | pg/src/reply/server.rs:90-147 | accepts encodings of clean and complete fields and says what they say; otherwise the refusal is explained |
| Diagnostic.EncodingIsUnique | pg/src/reply/server.rs:90-147 | a payload encodes at most one list of fields |
| Diagnostic.RefusalIsRight | pg/src/reply/server.rs:90-147 | whatever is refused is no such encoding |
| Diagnostic.ReplayField | pg/src/reply/server.rs:73-86 | stays inside the payload and takes the very field |
| Diagnostic.FromValid | pg/src/reply/server.rs:70-88 | on admitted bytes the unchecked replay initialises everything and returns the same fields |
| Diagnostic.ParseThenReplay | pg/src/reply/server.rs:63-147 | whenever the parser accepts, the replay agrees, and it accepts exactly the encodings |
| FloatText.AcceptsFloats | redis/src/value/scalar.rs:58-138 | the automaton behind the diagnosis accepts exactly the float grammar |
| FloatText.CompletableIsAlive | redis/src/value/scalar.rs:58-138 | a text can be completed to a float exactly when the automaton is alive after it |
| FloatText.Alphabet | redis/src/value/scalar.rs:90-137 | the signs, the exponent letters and the point |
| FloatText.SmallLetters | redis/src/value/scalar.rs:59-88 | capital letters are compared as small ones |
| FloatText.NamedCause | redis/src/value/scalar.rs:59-88 | infinity, inf and nan in any case |
| FloatText.MantissaEnd | redis/src/value/scalar.rs:90-111 | where the mantissa ends and how many digits it has |
| FloatText.DecimalCause | redis/src/value/scalar.rs:90-137 | the exact report for decimal text |
| FloatText.FloatCause | redis/src/value/scalar.rs:58-138 | no cause exactly for floats; else the first byte no float can have there, or the end of an unfinished float |
| FloatText.ExactIsUnique | redis/src/value/scalar.rs:58-138 | no other report would be right |
| FloatText.ParseFloat | redis/src/value/scalar.rs:25-56 | accepts exactly the grammar; a cause comes with every parse failure and is exact |
| FloatText.Utf8ReportIsExact | redis/src/value/scalar.rs:39-48 | the offset reported for text that is not UTF-8 is exact if and only if the automaton is not dead after the text before it |
| FloatText.Utf8ReportCanBeLate | redis/src/value/scalar.rs:39-48 | an input for which it is not |
| IntegerText.Magnitude | redis/src/value/scalar.rs:180-209 | non-empty digits up to the limit; otherwise the first failing offset and why |
| IntegerText.Signed | redis/src/value/scalar.rs:140-162 | all of i64, its minimum included, and nothing else |
| IntegerText.ParseUnsigned | redis/src/value/scalar.rs:164-178 | all of u64; a minus sign is negative unless the number is zero or no i64 |
| IntegerText.ParsePrinted | redis/src/value/scalar.rs:140-162 | every i64 printed parses to itself |
| IntegerText.WriteDigits | core/src/lib.rs:12-23 | the digits fill the end of twenty bytes and the rest is untouched |
| IntegerText.DigitsRead | core/src/lib.rs:12-23 | the digits denote the number |
| IntegerText.DigitsAreShortest | core/src/lib.rs:12-23 | digits without a leading zero are what is printed for their number |
| IntegerText.PrintThenParse | core/src/lib.rs:12-23 | what is printed parses back to the same number |
| RequestQueue.Arena.TryReserve | core/src/queue.rs:257-270 | one slot and one charge, or nothing; weight is refused before capacity |
| RequestQueue.Arena.Put | core/src/queue.rs:334-352 | the guard's slot and charge become an entry at the end, or at the front |
| RequestQueue.Arena.Release | core/src/queue.rs:357-360 | refunds the charge; the subtraction cannot wrap |
| RequestQueue.Arena.Forget | core/src/queue.rs:354-356 | a forgotten guard only leaves excess weight |
| RequestQueue.Arena.TakeFront | core/src/queue.rs:278-285 | the head leaves with its slot and charge |
| RequestQueue.Arena.PopFront | core/src/queue.rs:272-276 | the head leaves and is refunded |
| RequestQueue.Arena.TryWith | core/src/queue.rs:233-255 | publishes, or returns the input with nothing done or with only the preparation done; the preparation may push to and pop from any lane meanwhile |
| RequestQueue.PreparationAlone | core/src/queue.rs:233-255 | unless the reservation itself hinders a step, a failed publication leaves exactly what the preparation alone leaves, and a successful one adds one entry to that |
| RequestQueue.Arena.Clear | core/src/queue.rs:287-301 | oldest entries first, as many as the quota allows, and no other |
| RequestQueue.Arena.Drain | core/src/queue.rs:308-331 | sends heads while admitted; the first refused one is back at the front with its charge |
| RequestQueue.MovedConserves | core/src/queue.rs:272-331 | what left followed by what stayed is the old queue, and only what left is refunded |
| RequestQueue.LastInLastOut | core/src/queue.rs:334-352 | what is published last leaves after everything that was queued before, and not one entry later |
| RequestQueue.StillAccounted | core/src/queue.rs:333-360 | held weight is that of queued entries, live guards and forgotten guards |
| RequestQueue.Handoff.TryPublish | core/src/handoff.rs:30-77 | the reply is awaited and the request queued, or neither, and then which side refused |
| Deadline.Guard.PollExpired | core/src/deadline.rs:74-97 | passed exactly from first poll plus window on; never armed again |
| Deadline.Budget.PollExpired | pg/src/api/task/dispatch.rs:172-203 | whichever operation polls first fixes the deadline for all |
| TransactionFinish.Core.PollAdmit | pg/src/api/task/dispatch.rs:61-145 | a request is admitted exactly when it can be published; otherwise it waits, or ends with the error of the first obstacle |
| TransactionFinish.Core.Cancel | pg/src/api/task/dispatch.rs:52-59 | drops what the request holds; its own failure wins |
| TransactionFinish.Core.Select | pg/src/api/task/dispatch.rs:87-112 | a connection now, later, or the error of the first obstacle |
| TransactionFinish.Finish.Fail | pg/src/api/tx/finish.rs:79-98 | aborts whatever is held; an earlier failure of the command wins |
| TransactionFinish.Finish.StepHolding | pg/src/api/tx/finish.rs:154-215 | sends the request exactly when the transaction is current, idle and encodable; otherwise waits, or aborts with the stated error |
| TransactionFinish.Finish.StepDispatching | pg/src/api/tx/finish.rs:130-152 | publishes as soon as it can, at most once, and takes the lease over with the reply; otherwise waits, or aborts with the stated error |
| TransactionFinish.Finish.StepSettling | pg/src/api/tx/finish.rs:217-257 | settles whenever the disposition is known or ready, waits while it is not, and aborts only when it cannot be had |
| TransactionFinish.Finish.Poll | pg/src/api/tx/finish.rs:105-266 | when nothing stands in the way, a fresh fiber ends in one poll: checked, sent, answered and settled; it waits only for what the world withholds and aborts only when late or hindered; the first poll fixes the deadline |
| TransactionFinish.SentAtMostOnce | pg/src/api/tx/finish.rs:105-266 | COMMIT or ROLLBACK goes out at most once and only after the check |
| TransactionFinish.GivenUpOnce | pg/src/api/tx/finish.rs:105-266 | the lease is settled after a reply, or aborted, once |
| TransactionFinish.OkMeansSettledReusable | pg/src/api/tx/finish.rs:105-266 | success if and only if checked, sent, answered Ok and settled reusable |
| TransactionFinish.SentWhileCurrent | pg/src/api/tx/finish.rs:154-215 | over a run, a command that went out did so at or after a poll that found the transaction current with zero load |
| TransactionFinish.OkWasAnswered | pg/src/api/tx/finish.rs:217-257 | over a run, success comes from a reply that was Ok and a connection known, or then found, to be reusable |
| TransactionFinish.Run | pg/src/api/tx/finish.rs:105-266 | all of this over every run of polls, and every event comes from the world of the poll it happened in, in order |
| GroupRows.Required | pg/src/api/results/mod.rs:362-416 | all rows in order exactly when the sync is clean and every outcome has one; otherwise every outcome at its index |
| GroupRows.ReturnedIsOriginal | pg/src/api/results/mod.rs:402-410 | outcomes come back as what they are; only completion without a row becomes a failure |
| GroupRows.TakeAll | pg/src/api/results/mod.rs:373-398 | takes every payload, or restores the prefix it took |
| GroupRows.FailureKeepsPayloads | pg/src/api/results/mod.rs:400-416 | a failure loses, duplicates and moves no payload |
| FailureIndex.Failures.Record | redis/src/port/failures.rs:66-82 | the slot is replaced and the cache stays the lowest occupied lane |
| FailureIndex.Failures.Clear | redis/src/port/failures.rs:41-64 | rescanning past the cleared lane is enough |
| FailureIndex.Failures.Cause | redis/src/port/failures.rs:32-39 | agrees with a full scan |
| FailureIndex.Run | redis/src/port/failures.rs:32-82 | after any run of steps |
| ArrayReader.DecodeWritten | pg/src/schema/array.rs:138-216 | reading inverts length-prefixed writing |
| ArrayReader.DecodedIsWritten | pg/src/schema/array.rs:138-216 | and accepts nothing else |
| ArrayReader.DecodeAfter | pg/src/schema/array.rs:40-47 | what is written well is read, whatever follows |
| ArrayReader.DecodeStops | pg/src/schema/array.rs:40-47 | the first fault is reported, and bytes left over come last |
| ArrayReader.ReadFails | pg/src/schema/array.rs:138-216 | what is wrong with an element, by the length it claims and what follows |
| ArrayReader.NumbersHeld | pg/src/schema/array.rs:163-197 | the ranges of the two integer types |
| ArrayReader.FourBytes | pg/src/schema/array.rs:144 | a length is big-endian |
| ArrayReader.TryCollect | pg/src/schema/array.rs:40-47 | all values, or the first error; trailing bytes come last |
| ArrayReader.Iter.Next | pg/src/schema/array.rs:66-87 | exactly the next item; nothing follows an error |
| ArrayReader.Iter.SizeHint | pg/src/schema/array.rs:89-96 | the bounds hold at every step |
| ArrayReader.RunIter | pg/src/schema/array.rs:60-97 | run to its end the iterator gives the same values or first error as collecting |

## Left out

- Unicode, stringprep and bidi tables: parameters. `Composition.Lawful` states the table facts the algorithm needs (a composition with a class-zero starter has class zero), `Password.AsciiLaws` those of ASCII.
- Reuse of the original string buffer when its capacity fits, zeroizing and allocator internals; `grants` is the allocator's verdict.
- Bare columns in INSERT scopes, aggregate variables of HAVING, unnested columns and JSON paths in predicates; raw prefixes of row variables; attributes, spans and message texts.
- Blocks with statements: a block is its single tail expression.
- Contains and the ltree ancestor operator share the spelling `@>` in PostgreSQL; that the database tells them apart by the types of their operands is the assumption `Meaning.SharesSpelling`.
- Clauses.QualifyReads: a literal LIMIT is not negative, because the source parses unsigned literals, and what follows the bounds is a locking clause or nothing.
- Scalar operations and aggregates over values are uninterpreted; comparisons and connectives are three-valued.
- `qualify::State::peel`, DISTINCT and lock clauses, projections, RETURNING and the generated Rust code.
- The prefix of common table expressions is one of the renders that `Captures.RunDenotes` ranges over; its assembly is not modelled.
- ORDER BY keys of a set operation: the text after the last branch is a single trailing token.
- Fairness quotas between lanes: `share` is the verdict of the pool.
- RequestQueue.Arena.TryWith: a preparation is a sequence of pushes and pops on the lanes of the pool; what else it does to the region is not modelled.
- Unweighted queues, whose charge is always nothing.
- RequestQueue.Handoff.TryPublish: reply lanes are one bounded list of tags, because the reply arena is not part of this model.
- Detaching a response order in `Core::fail`, streams, groups and Begin.
- TransactionFinish.Core.PollAdmit: connection upkeep before the selection and the choice of the connection itself are not modelled.
- FloatText.ParseFloat: the numeric value is not modelled, only acceptance and the report.
- Owned copies of diagnostics, notifications and aggregate retention in `raw.rs`.
- GroupRows.Required: rows are the payloads; the typed row wrapper adds nothing.
- ArrayReader.TryCollect: the up-front allocation is not modelled.
- FailureIndex.Failures.Clear: the cached pointer is the index of its lane.
- `Quoting` works on characters; the source works on bytes but splits only at ASCII characters.
