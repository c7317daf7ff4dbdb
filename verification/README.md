# bacteriaDB query builders, in Dafny

bacteriaDB is a small web front end over a relational database. Its pages turn a
schema document (tables, typed fields, primary and foreign keys) into forms that
write SQL:

- the **advanced join builder** keeps a relationship graph built from the
  foreign keys. It also keeps the selected tables and a list of join paths.
  It finds paths between tables by breadth-first search and writes a
  `SELECT … FROM … JOIN …` statement from them;
- the **direct relation form** lists the foreign keys that leave and enter one
  table, encodes each as an option value `dir|fromTable|fromField|toTable|toField`,
  and writes the two-table JOIN for the chosen one;
- the **INSERT, SELECT, UPDATE and DELETE forms** read their inputs into data
  objects and write one statement each;
- the **client log** is a bounded buffer, newest entry first. It also holds
  the fixed messages shown for API, validation and SQL errors;
- the **`/query` route** validates the statement it receives and caps the rows
  it sends back. For the audit log it reads an operation and a table off the
  statement, and it audits INSERT, UPDATE and DELETE statements.

Each source file keeps its own form here:

- The advanced builder is a class, `AdvancedRelationForm.JoinBuilder`. Its
  fields are the page's module-level variables, and its handlers are methods
  that change them.
- Its searches are methods with `while` loops over a FIFO queue, proved
  against predicates that say which paths they may return and which they
  cannot miss. The completeness proofs of the two searches that share one
  `visited` set track, as ghost state, the depth at which each table was
  first seen.
- `generateAdvancedSQL` is a method with the source's nested loops, proved
  equal to the function `JoinSynthesis.AdvancedSql`. That function is a fold
  over the edges of the join paths, and the JOIN plan's guarantees are
  lemmas about it.
- The form builders are methods with loops, each proved equal to a function
  of its inputs; the lemmas are stated about that function.
- The logger is a class, `Logging.Logger`.
- The `/query` rules and the DELETE builder are pure functions.

JavaScript values are modelled explicitly:

- A form or object value is `JsStrings.JsValue`: `undefined`, `null` or a
  string.
- Template interpolation writes `undefined` and `null` as those words.
- `trim` removes exactly the JavaScript white-space set.
- A string's length is counted in UTF-16 code units.
- `slice` accepts a negative end.
- `splice` accepts a negative index.
- An object's entries keep insertion order, and assigning an existing key
  keeps its place.
- `val.replace` on a value that is not a string throws. The UPDATE builder's
  result is then `None`.

## Model

| member | source | states |
|---|---|---|
| `RelationGraph.GraphOfEdges` | static/advanced-relation-form.js:50-68 | An edge is stored under table T exactly when some foreign-key field produces it: the `fk_out` edge under its own table, the `fk_in` edge under the referenced table. |
| `RelationGraph.GraphOfKeys` | static/advanced-relation-form.js:43-45 | A table has an adjacency entry exactly when it is a schema table or the target of some foreign key, including a target missing from the schema (lines 59-61). |
| `RelationGraph.GraphOfSymmetric` | static/advanced-relation-form.js:50-68 | The built graph is symmetric. For every `fk_out` edge from T to U with fields (f, uf) there is an `fk_in` edge from U to T with fields (uf, f), and the reverse holds too. |
| `RelationGraph.SymmetricLinks` | static/advanced-relation-form.js:817-840 | On a symmetric graph, A has an edge to B exactly when B has an edge to A. |
| `AdvancedRelationForm.JoinBuilder.constructor` | static/advanced-relation-form.js:4-7 | The builder starts with no schema, no selection, no join paths and an empty graph. |
| `AdvancedRelationForm.JoinBuilder.BuildRelationshipGraph` | static/advanced-relation-form.js:37-81 | After the loops, the graph equals the graph of the schema (its properties are the `RelationGraph` lemmas). Nothing else changes. |
| `AdvancedRelationForm.JoinBuilder.LoadSchema` | static/advanced-relation-form.js:18-34 | Loading a fetched schema stores it and rebuilds the graph from it. Selection and join paths are kept. |
| `PathSearch.FindAllPaths` | static/advanced-relation-form.js:84-108 | Equal start and end give `[[]]`. Otherwise every returned path has 1 to maxDepth edges and is a walk of the graph from the start. Its last edge reaches the end, its edge targets are pairwise distinct, and only the last edge reaches the end. Conversely, every such path is returned: the search misses none. |
| `PathSearch.GetConnectedTables` | static/advanced-relation-form.js:111-124 | The reported tables are exactly `ConnectedNames`: the other schema tables with at least one path, in schema order. Each comes with exactly the paths `findAllPaths` can return for it, none missing and none extra. |
| `PathSearch.ConnectedNamesExactly` | static/advanced-relation-form.js:114-119 | A table is listed exactly when it is a schema table other than the start and some path of at most maxDepth edges leads to it. |
| `PathSearch.FindPathThroughIntermediate` | static/advanced-relation-form.js:596-623 | Every returned path walks the graph from the start, has 1 to maxDepth edges, ends at the end table and reaches no table twice. The result is non-empty whenever some walk of 1 to maxDepth edges leads from the start to the end, even though the shared `visited` set prunes the search. |
| `PathSearch.FindOptimalJoinPaths` | static/advanced-relation-form.js:532-593 | Fewer than two tables give `[]`. Otherwise the result is a BFS part followed by a fallback part. Each BFS path (lines 547-563) has 1 to 3 edges, walks from the first selected table through selected tables only, and ends at a different selected table than every other BFS path. The BFS part is complete: every selected table that such a walk reaches is the last table of a BFS path. Each fallback path (lines 569-590, 604-610) starts at the first selected table, has 1 or 2 edges, and ends at a selected table the BFS paths did not reach. Every such unreached table that a walk of 1 or 2 edges leads to ends some fallback path. |
| `AdvancedRelationForm.JoinBuilder.AddTable` | static/advanced-relation-form.js:375-383 | A non-empty name not yet selected is appended. An empty or already selected name changes nothing. The selection stays free of duplicates. |
| `AdvancedRelationForm.JoinBuilder.ClearTables` | static/advanced-relation-form.js:386-392 | Selection and join paths become empty. Schema and graph are unchanged. |
| `AdvancedRelationForm.JoinBuilder.ClearRelations` | static/advanced-relation-form.js:401-405 | The join paths become empty. Nothing else changes. |
| `AdvancedRelationForm.JoinBuilder.RemoveTable` | static/advanced-relation-form.js:480-485 | The table leaves the selection. Exactly the join paths with an edge targeting it are dropped, and the others keep their order. |
| `AdvancedRelationForm.Without` | static/advanced-relation-form.js:481 | Deleting from the selection keeps exactly the other tables. |
| `AdvancedRelationForm.WithoutKeepsDistinct` | static/advanced-relation-form.js:481 | Deleting keeps the selection free of duplicates. |
| `AdvancedRelationForm.Avoiding` | static/advanced-relation-form.js:482-484 | A path survives the filter exactly when no edge of it targets the removed table. |
| `AdvancedRelationForm.JoinBuilder.RemoveRelationship` | static/advanced-relation-form.js:650-651 | `splice(index, 1)` removes the path at the index, counting a negative index from the end. An index past the end removes nothing. |
| `AdvancedRelationForm.SpliceStart` | static/advanced-relation-form.js:651 | The start of `splice` is the index when it is in range, and length plus index when it is negative and in range. |
| `AdvancedRelationForm.JoinBuilder.AutoDetect` | static/advanced-relation-form.js:495-529 | With fewer than two selected tables nothing changes. Otherwise the join paths are replaced by a result with the `FindOptimalJoinPaths` guarantees: sound and complete BFS paths, then fallback paths reaching every remaining selected table within two edges. |
| `AdvancedRelationForm.JoinBuilder.GenerateAdvancedSql` | static/advanced-relation-form.js:756-865 | The text the method builds equals `JoinSynthesis.AdvancedSql` of the graph, the selection, the join paths and the checked columns. |
| `AdvancedRelationForm.JoinBuilder.FromPart` | static/advanced-relation-form.js:795-861 | A single table gives `FROM first` alone. Several tables without join paths add the two advisory comments. Otherwise `FROM first` is followed by the JOIN clauses of the plan. |
| `AdvancedRelationForm.JoinBuilder.JoinClauses` | static/advanced-relation-form.js:806-860 | The nested loop appends exactly the rendered JOIN clauses of the plan. |
| `AdvancedRelationForm.JoinBuilder.JoinRelation` | static/advanced-relation-form.js:811-857 | One relation is one step of the plan's fold. It is skipped when its key was processed or its table is joined; otherwise it is joined to its source table and rendered. |
| `AdvancedRelationForm.FindSourceTable` | static/advanced-relation-form.js:817-842 | The search finds the first joined table that is a non-empty name and links to the relation. It finds nothing when there is none. |
| `AdvancedRelationForm.LinksTo` | static/advanced-relation-form.js:818-840 | One test of the search is exactly the `Links` lookup: the joined table's edges for `fk_out`, the relation table's edges for `fk_in`, and a table with no entry links to nothing. |
| `AdvancedRelationForm.ScanTargets` | static/advanced-relation-form.js:822-827 | The inner scan succeeds exactly when some edge of the adjacency targets the table. |
| `JoinSynthesis.FirstLinked` | static/advanced-relation-form.js:817-846 | A found source is a joined, non-empty table that links to the edge. When none is found, no joined non-empty table links to it. |
| `JoinSynthesis.AdvancedSqlSentinels` | static/advanced-relation-form.js:757-766 | The "select a table" sentinel comes back exactly when no table is selected. The "select a column" sentinel comes back exactly when tables are selected but no column is. Every other result starts `SELECT` and ends with `\nLIMIT 100;` (line 863). |
| `JoinSynthesis.AliasIffShared` | static/advanced-relation-form.js:773-790 | A column gets an alias exactly when another selected column has the same bare name. The alias is `t.c AS t_c`. |
| `JoinSynthesis.CountNameTwice` | static/advanced-relation-form.js:773-778 | The count of a bare name exceeds one exactly when two positions carry it. |
| `JoinSynthesis.CountNameOnce` | static/advanced-relation-form.js:773-778 | The count is positive exactly when some position carries the name. |
| `JoinSynthesis.PlanIsCoherent` | static/advanced-relation-form.js:806-860 | In the JOIN plan, the joined tables are the first table followed by the clause tables, all distinct: each table is joined at most once and the first is never joined. Every clause's source is the first table or a table joined earlier that links to it. The processed keys are the clause keys. |
| `JoinSynthesis.PlanJoinsEveryPathTable` | static/advanced-relation-form.js:809-858 | When no name contains a dash, every table any join path reaches ends up joined. |
| `JoinSynthesis.PlanOnlyPathEdges` | static/advanced-relation-form.js:809-858 | Every JOIN clause follows an edge of some join path. |
| `JoinSynthesis.JoinKeyDeterminesTable` | static/advanced-relation-form.js:811-813 | Without dashes in the names, equal join keys mean the same target table. |
| `JoinSynthesis.LinksIgnoreDirection` | static/advanced-relation-form.js:818-840 | On a graph built from a schema, the `fk_out` and `fk_in` lookups give the same answer. So the chosen source does not depend on the edge's direction. |
| `Schema.Find` | static/relation-form.js:12 | Looking a table up finds it exactly when the schema has a table of that name, and returns a table of that name. |
| `Schema.FindUnique` | static/relation-form.js:12 | With distinct table names the lookup returns the one table with the name. |
| `Schema.TypeOf` | static/insert-form.js:148-155 | Every type other than int, float, boolean and date is handled as text. |
| `RelationForm.GetRelationsForTable` | static/relation-form.js:11-41 | A table not in the schema gives two empty lists. Otherwise `fkOut` is the filter over the table's fields and `fkIn` is the loop over every table's fields. |
| `RelationForm.FkOutOf` | static/relation-form.js:15-23 | `fkOut` holds exactly one `out` relation, from the table, for each foreign-key field, and no more entries than fields. |
| `RelationForm.FkOutKeepsOrder` | static/relation-form.js:15-23 | The relations of consecutive fields come in field order. |
| `RelationForm.FkInFields` | static/relation-form.js:28-38 | One table's contribution holds exactly an `in` relation for each of its fields that references the table. |
| `RelationForm.FkInExactly` | static/relation-form.js:26-39 | `fkIn` holds exactly one `in` relation to the table for every field, in any table, whose foreign key targets it. |
| `RelationForm.FkInAgreesWithGraph` | static/relation-form.js:26-39 | Every `fkIn` entry is an `fk_in` edge that the advanced builder's graph stores under the same table. |
| `RelationForm.FkOutAgreesWithGraph` | static/relation-form.js:15-23 | Every `fkOut` entry is an `fk_out` edge of that graph. |
| `RelationForm.DestructureEncode` | static/relation-form.js:112 | Splitting an option value (written at lines 112 and 121, split at lines 162 and 218) on `\|` gives back the five components when no name contains `\|`. |
| `RelationForm.BuildRelationSqlSentinels` | static/relation-form.js:213-228 | The "select the table and the relationship" message comes back exactly when the table or the relation is empty. "Invalid relationship" comes back exactly when the relation lacks fromField or toField. |
| `RelationForm.StatementIsSelect` | static/relation-form.js:230-239 | Past both checks the result is a statement starting `SELECT`. |
| `RelationForm.TrimTemplate` | static/relation-form.js:236-239 | Trimming the template removes exactly its surrounding newlines. |
| `RelationForm.BuildRelationSqlQuery` | static/relation-form.js:218-239 | A chosen relation with both field names gives `SELECT <primary columns>, <secondary columns>` followed by the FROM/JOIN part. The secondary columns are qualified by toTable for `out` and by fromTable otherwise. |
| `RelationForm.BuildRelationSqlJoin` | static/relation-form.js:231-235 | Encoding a relation and building from it gives `FROM t1 JOIN toTable ON t1.fromField = toTable.toField` for `out`. For `in` it gives `FROM t1 JOIN fromTable ON fromTable.fromField = t1.toField`. |
| `FormValues.Provided` | static/insert-form.js:145-146 | The fields a builder writes are at most the schema's fields. |
| `FormValues.ProvidedExactly` | static/insert-form.js:145-146 | A field is written exactly when it is a schema field whose data value is a string other than `''`, so `undefined` and `null` are left out. |
| `FormValues.ProvidedAppend` | static/select-form.js:127-141 | The written fields keep schema order. |
| `FormValues.LikeLiteralReadsBack` | static/select-form.js:138 | The LIKE literal, with its quotes doubled, reads back as the pattern `%v%`. |
| `JsStrings.EscapeRoundTrip` | static/insert-form.js:154 | Doubling every `'` can be undone. |
| `JsStrings.QuoteRoundTrip` | static/insert-form.js:154 | A value quoted with its `'` doubled reads back as the value. |
| `JsStrings.SplitJoin` | static/relation-form.js:218 | Joining parts that do not contain the separator and splitting again gives the parts back. |
| `JsStrings.TrimEmptyIffBlank` | routes/query.js:48-49 | The trimmed text is empty exactly when every character is JavaScript white space. |
| `JsStrings.Utf16Length` | routes/query.js:52 | `length` counts one unit per character of the basic plane and two for every other character. It equals the character count exactly when every character is in the basic plane, and twice that count exactly when none is. |
| `JsStrings.Utf16LengthAppend` | routes/query.js:52 | The length of a concatenation is the sum of the lengths. A single character counts 2 beyond the basic plane and 1 otherwise. |
| `InsertForm.Convert` | static/insert-form.js:131-135 | `''` becomes `null`. A boolean input becomes 1 for `'1'` and 0 for anything else, including a missing input. Text and dates pass unchanged. No value is `''` afterwards. |
| `InsertForm.FormData` | static/insert-form.js:128-139 | The data object has a key for every schema field. |
| `InsertForm.FormDataLastWins` | static/insert-form.js:130-137 | A field's entry is the conversion of its own input unless a later field of the same name overwrote it. |
| `InsertForm.FormDataBlankIsNull` | static/insert-form.js:132 | An input left empty is stored as `null`. |
| `InsertForm.BlankInputsOmitted` | static/insert-form.js:132-146 | Reading the form and then building never includes a field whose input was empty. |
| `InsertForm.GetFormData` | static/insert-form.js:128-139 | The loop builds exactly `FormData`. |
| `InsertForm.InsertValueReadsBack` | static/insert-form.js:148-155 | int, float and boolean values are written bare, and dates between quotes. Any other value is written as a literal that reads back as the value. |
| `InsertForm.InsertAligned` | static/insert-form.js:147-155 | The name list and the value list have equal length. The k-th value is the k-th column's own data, written as its type demands. |
| `InsertForm.BuildInsertSql` | static/insert-form.js:142-163 | The loop builds exactly `InsertSql`. When no field is written the result is `INSERT INTO t (...) VALUES (...);` (lines 158-161). |
| `SelectForm.FormData` | static/select-form.js:114-122 | Every schema field is a key, and no value is `''`. |
| `SelectForm.FormDataValue` | static/select-form.js:117-119 | Each key holds its input's value, with `''` read as `null`. |
| `SelectForm.GetFormData` | static/select-form.js:114-122 | The loop builds exactly `FormData`. |
| `SelectForm.FilterForms` | static/select-form.js:130-139 | Numbers and booleans are compared bare with `=`, and dates with `= 'v'`. Text is matched with `LIKE` against a literal that reads back as `%v%`. |
| `SelectForm.SelectShape` | static/select-form.js:142-143 | With nothing written there is no WHERE clause. Otherwise the filters are joined with ` AND `. |
| `SelectForm.BuildSelectSql` | static/select-form.js:125-144 | The loop builds exactly `SelectSql`. |
| `UpdateForm.Keys` | static/update-form.js:164 | The k-th key is the key of the k-th entry, so the keys come in insertion order. |
| `UpdateForm.Assign` | static/update-form.js:154-156 | After assigning, the key holds the value and every other key keeps its entry. |
| `UpdateForm.AssignKeys` | static/update-form.js:154-156 | Assigning an existing key keeps the key order. A new key goes last. |
| `UpdateForm.AssignDistinct` | static/update-form.js:154-156 | Keys stay distinct. |
| `UpdateForm.UpdateEntriesExactly` | static/update-form.js:150-159 | Each stored entry belongs to a schema field and holds that field's input, never `''`. A field is stored exactly when its input is not `''`, so a missing input is stored as `undefined`. |
| `UpdateForm.GetUpdateFormData` | static/update-form.js:150-159 | The loop fills `set` and `where` exactly as `UpdateEntries` does, with the `set-field-` and `where-field-` prefixes. |
| `UpdateForm.FindField` | static/update-form.js:165-178 | The first field with the name is found when one exists. |
| `UpdateForm.PiecesAppend` | static/update-form.js:164-187 | Collecting is a fold over the entries. A throw anywhere is a throw of the whole. |
| `UpdateForm.UnknownEntrySkipped` | static/update-form.js:166-179 | An entry whose name is not a schema field changes nothing, wherever it stands. |
| `UpdateForm.PiecesThrowIff` | static/update-form.js:172-185 | The builder throws exactly when some entry names a text field and holds no string. |
| `UpdateForm.RenderForms` | static/update-form.js:167-186 | Numbers and booleans are written bare, and dates between quotes. Text is a literal that reads back as the value in SET and as `%v%` in WHERE. |
| `UpdateForm.UpdateShape` | static/update-form.js:189-191 | With nothing to set the statement says `SET ...`. With no filter it has no WHERE clause. |
| `UpdateForm.StringsNeverThrow` | static/update-form.js:172-185 | Entries that all hold strings never throw. |
| `UpdateForm.FormDataBuilds` | static/update-form.js:150-192 | Data read from a form whose inputs all exist never makes the builder throw. |
| `UpdateForm.CollectPieces` | static/update-form.js:164-187 | The `forEach` loop gives exactly the collected pieces, or `None` at the first throw. |
| `UpdateForm.BuildUpdateSql` | static/update-form.js:162-192 | The builder gives exactly `UpdateSql`. |
| `DeleteForm.PkFields` | static/delete-form.js:44 | The key fields are exactly the schema fields marked `pk`. |
| `DeleteForm.PkFieldsAppend` | static/delete-form.js:44 | The filter keeps schema order. |
| `DeleteForm.DeleteEmptyIff` | static/delete-form.js:114-121 | The result is `''` exactly when the table name is empty or some key has no value. Otherwise every key has a value, and the statement deletes by all of them joined with ` AND `. |
| `Logging.Rank` | static/logger.js:54 | Exactly the four levels debug, info, warn and error have a rank. |
| `Logging.AtLeastOrder` | static/logger.js:53-56 | On known levels the threshold test is the total order of the ranks. |
| `Logging.DefaultThreshold` | static/logger.js:8 | Under the default threshold `info`, exactly info, warn and error pass. |
| `Logging.Pushed` | static/logger.js:22-27 | After `unshift` and the cap, the new entry is first and the old entries follow, cut to the cap. |
| `Logging.Reverse` | static/logger.js:22 | Element k of the result is element n-1-k of the input. |
| `Logging.PushAllNewestFirst` | static/logger.js:22-27 | After any run of `log` calls the buffer holds the newest entries first, followed by the older contents, cut to the cap. |
| `Logging.Logger.constructor` | static/logger.js:5-9 | The log starts empty, with cap 100 and threshold `info`. |
| `Logging.Logger.Log` | static/logger.js:12-44 | The buffer becomes `Pushed` of the old buffer, and the threshold is kept. A buffer within the cap stays within it. |
| `Logging.Logger.Info` | static/logger.js:48 | `info` logs at level `info`. |
| `Logging.Logger.ShouldLog` | static/logger.js:53-56 | A level passes only when both it and the threshold are known. Under `info`, exactly info, warn and error pass. |
| `Logging.ByLevel` | static/logger.js:135 | The filter keeps exactly the entries of the level. |
| `Logging.ByLevelAppend` | static/logger.js:135 | The filter keeps order. |
| `Logging.SliceFront` | static/logger.js:138 | `slice(0, end)` is a prefix whose length follows JavaScript's rule for a negative end. |
| `Logging.Logger.GetLogs` | static/logger.js:131-139 | The result is a prefix of the level's entries in stored order, or of the whole buffer when the level is missing or empty. Its length is the limit (50 when missing) capped by the number kept; a negative limit drops that many from the end, as `slice` does. With a level, every entry returned is a stored entry of that level. |
| `Logging.Logger.Clear` | static/logger.js:142-145 | Afterwards the buffer holds only the entry that records the clearing. |
| `Logging.FriendlyMessage` | static/logger.js:232-244 | Statuses 404, 500, 403 and 400 get their messages. Every other status, or none, gets the connection message. |
| `Logging.ValidationMessage` | static/logger.js:247-255 | Exactly the rules other than required, email, min and max get "Formato inválido". |
| `Logging.SqlErrorMessage` | static/logger.js:258-268 | Text containing "syntax error" gets the syntax message. The generic message comes back exactly when there is no text or it contains none of the three keywords. |
| `QueryRoute.ValidateQuery` | routes/query.js:44-56 | An absent, non-string or empty query is refused as not a string. A non-empty query that trims to nothing is refused as empty. A trimmed query over 10000 UTF-16 units is refused as too long. The query is valid exactly when its trimmed text is non-empty and within the limit. |
| `QueryRoute.WhitespaceRejected` | routes/query.js:48-51 | A query made only of white space is refused as empty. |
| `QueryRoute.NameRun` | routes/query.js:86 | The greedy table group is the longest prefix of characters that are neither white space nor `;`. |
| `QueryRoute.TableGroup` | routes/query.js:86 | The table group holds only name characters. |
| `QueryRoute.Keyword` | routes/query.js:86 | The keyword is one of the four, matched at the start without regard to case. |
| `QueryRoute.Extract` | routes/query.js:86-88 | On a match, the operation is the upper-case keyword and the table is a non-empty run of name characters. |
| `QueryRoute.KeywordSurvivesTrim` | routes/query.js:93 | Trimming a statement that starts with a keyword and has more text after it keeps the keyword in front. |
| `QueryRoute.TableInQuery` | routes/query.js:86 | On a match, a non-blank character stands past the keyword. |
| `QueryRoute.DmlOperationAudited` | routes/query.js:86-93 | Every statement whose operation reads INSERT, UPDATE or DELETE is audited. |
| `QueryRoute.LeadingSpaceNoMatch` | routes/query.js:86-88 | The pattern is anchored: a statement starting with white space reads operation `QUERY` and no table. |
| `QueryRoute.LeadingSpaceAuditedAsQuery` | routes/query.js:86-93 | A space before an INSERT, UPDATE or DELETE statement defeats the pattern but not the trimmed audit test. The statement is audited with operation `QUERY` and no table. |
| `QueryRoute.LimitRows` | routes/query.js:105-116 | An array result is cut to its first 1000 rows. `limited` is true exactly when the array had more than 1000. A result that is not an array is passed on and never flagged. |

## Path search as written

- `PathSearch.FindAllPaths` lets a path pass back through its start table (static/advanced-relation-form.js:101 checks only the tables already on the path). Only the other tables on a path are distinct, and the model keeps that.
- `PathSearch.FindOptimalJoinPaths` expands steps of depth 0 to 2 (static/advanced-relation-form.js:547), so its shared BFS records paths of up to three edges.
- `PathSearch.FindOptimalJoinPaths` starts every fallback search at `Array.from(connectedTables)[0]` (static/advanced-relation-form.js:582), which is always the first selected table because it is inserted first (line 569).

## Left out

- DOM and UI code is not modelled: the form and table renderers, event wiring, notifications, table sorting and filtering, and CSV export. Only the values these read from the page appear, as parameters.
- Network, storage and timers are not modelled: `fetch` of the schema, of `/query` and of the logs, `localStorage` for saved queries, preset loading and retries. A fetched schema is a parameter of `LoadSchema`.
- `db.js`, `routes/backup.js` and `index.js` are not part of this model. They hold database drivers, shell commands and server wiring. The `/query` handler is modelled only for its validation, operation and table extraction, audit test and row cap; the query runs in the database and logging is I/O.
- Logger side effects are left out: console output, `sendToServer`, `showNotification`, `export`, and the timestamp and random id of an entry. An entry is its level and message, and the attached data is dropped.
- `ErrorHandler` is modelled only through its three message functions. Its class body (static/logger.js:176-193) does not parse as written, and its global handlers are event wiring.
- The edge's display label (`relationship`) is not modelled; no behaviour reads it.
- `InsertForm.Convert`: `parseInt` and `parseFloat` are kept opaque. An int or float input's text is stored unchanged, and only a missing input reads `NaN`. Floating point and JavaScript number parsing are not modelled.
- `DeleteForm.Conditions`: `isNaN(Number(value))` is the parameter `notNumber`, not JavaScript's number grammar.
- `UpdateForm.Assign`: JavaScript lists integer-like object keys first, in numeric order. The model keeps plain insertion order for every key.
- `PathSearch.GetConnectedTables` returns the `Map` as a sequence of pairs in insertion order. The schema's table names are an object's keys and so distinct, hence no pair is overwritten.
- `AdvancedRelationForm.JoinBuilder.JoinRelation` appends a JOIN clause in one step, where the source appends its two halves separately; the final text is the same.
- `JoinSynthesis.PlanJoinsEveryPathTable` holds only when no table or field name contains `-`. With dashes two different edges can share a join key, and the source then skips a table.
- `AdvancedRelationForm.JoinBuilder.RemoveRelationship` takes an integer index: a `parseInt` that yields `NaN` is not modelled.
- `QueryRoute.ValidateQuery` takes the request field as an optional string: a non-string value is `None`, like a missing one.
