# golang-coursera exercises, modelled in Dafny

This project models the sequential logic of seven Go course exercises. Each exercise has its own module, and the properties their code promises are proved about the models. A shared module `Text` supplies the string functions the exercises call: `strings.Split`, `strings.Join`, `strings.HasPrefix`, `strings.Contains`, `strings.ReplaceAll`, `strings.ToLower`, `strconv.Atoi` and `strconv.Itoa`.

| file | module | exercise |
|---|---|---|
| microservice.dfy | `Microservice` | hw7: the access-controlled RPC service. Covers the ACL matcher, the log-listener and statistics registries, the two interceptors, and one step of each administrative stream. |
| db_explorer.dfy | `DbExplorer` | hw6: the database explorer. Covers routing, query parameters, column metadata, body validation, the insert and update SQL text, and row projection. |
| codegen.dfy | `Codegen` | hw5: the handler generator. Covers the tag-rule parser of `Field.ParseApiValidator` and the grouping and derivation steps of `main`. |
| tree.dfy | `Tree` | hw1: the tree printer. Covers the three-slice stack, the in-place exchange sort, the push order, the indentation and the size label. |
| bench.dfy | `Bench` | hw3: the fast search. Covers the generated User decoder and encoder, the per-line filter and the unique-browser count. |
| i2s.dfy | `I2S` | hw8: `i2s`, which converts a dynamic JSON-like value into a typed target in place. |
| search_server.dfy | `SearchServer` | hw4: the `SearchServer` test fixture. Covers the token check, parameter parsing, the limit clamp and the returned window. |
| text.dfy | `Text` | The string and integer helpers shared by the modules. |

Where the source changes state in place, the model is imperative:

- The hw7 service, the hw5 field, the hw1 stack, the hw3 user and the hw8 target cell are classes.
- The registries are `map` fields that the methods reassign.
- The hw1 sort works on an `array`.
- Each loop in the source is a `while` loop with invariants, proved against a specification function. The loop methods include parseBody, the SQL builders, FastSearch, the decoder, the encoder, printLines, the push loop, the i2s field and element loops, and the SearchServer loop.

A Go map iterated with `range` has no fixed order. Where the result depends on that order, the order is an input: a sequence listing each key once.

## Model

| member | source | states |
|---|---|---|
| Microservice.AnyPatternAllows | hw7_microservice/service.go:143-154 | The pattern loop admits the method iff some pattern equals it, or ends in `*` and, without that `*`, is a prefix of it. |
| Microservice.HasAccess | hw7_microservice/service.go:137-155 | A consumer missing from the ACL is denied. A known consumer is admitted iff one of its patterns admits the method. |
| Microservice.WildcardAdmitsExtensions | hw7_microservice/service.go:147-151 | A `prefix*` pattern admits every method that starts with `prefix`. |
| Microservice.AccessScenario | hw7_microservice/service.go:137-155 | An exact pattern admits only its method, and a wildcard admits an extension. A method covered by neither is denied, and an unknown consumer is denied. |
| Microservice.Inc | hw7_microservice/service.go:132-133 | `++` on a uint64 counter adds one below the maximum and wraps to 0 at the maximum. |
| Microservice.Bump | hw7_microservice/service.go:132-133 | `m[key]++` adds the key if absent and increments the counter read as zero when missing. It leaves every other key unchanged. |
| Microservice.Record | hw7_microservice/service.go:131-134 | Recording one call in a window increments exactly the method's and the consumer's counters by one. Nothing else in the window changes. |
| Microservice.RecordAllCounts | hw7_microservice/service.go:128-135 | After a sequence of calls, each counter of a window equals its start value plus the number of calls that carry its key (below the uint64 limit). |
| Microservice.Decide | hw7_microservice/service.go:25-31 | Admitted iff the `consumer` key has a value whose first element the ACL admits. That first value is the consumer. Present with no value is the `consumer[0]` panic. |
| Microservice.Service.constructor | hw7_microservice/service.go:157-164 | newService has the given ACL, empty registries and zero counters. |
| Microservice.Service.RegisterLogClient | hw7_microservice/service.go:75-81 | The id is the old LogCount plus one. It is above every registered id, so it is unused. It gets an empty inbox, and no other listener or field changes. |
| Microservice.Service.LogEvent | hw7_microservice/service.go:83-91 | The event is appended to the inbox of every listener registered now. The set of listeners does not change. |
| Microservice.Service.UnsubscribeLogClient | hw7_microservice/service.go:93-98 | Removes exactly that id. It is a no-op when the id is absent, so a second call changes nothing. |
| Microservice.Service.RegisterStatClient | hw7_microservice/service.go:100-106 | A fresh id, one above StatCount and above every registered id, with an empty window. Nothing else changes. |
| Microservice.Service.UnsubscribeStatClient | hw7_microservice/service.go:108-112 | Removes exactly that id. It is a no-op when the id is absent. |
| Microservice.Service.ResetStat | hw7_microservice/service.go:114-118 | The client's window becomes empty. A client that was absent becomes registered. |
| Microservice.Service.GetStat | hw7_microservice/service.go:120-126 | Returns the client's window stamped with the given time. An unknown client reads as an empty window. |
| Microservice.Service.AddInvocation | hw7_microservice/service.go:128-135 | Every registered window records the call. The set of registered ids and the log side do not change. |
| Microservice.Service.RunHandler | hw7_microservice/service.go:53 | Running the handler appends one HandlerRun step to the call history and returns the handler's reply and error. No other field changes. |
| Microservice.Service.AuthStreamInterceptor | hw7_microservice/service.go:19-35 | A denied call returns Unauthenticated and leaves the history and both registries unchanged. An admitted call extends the history by StatsRecorded, EventLogged, HandlerRun in that order. Each of those steps is appended by the method that performs it. The call is counted in every window and its event is appended to every inbox; the handler's error is returned. |
| Microservice.Service.AuthInterceptor | hw7_microservice/service.go:37-63 | A denied call returns no reply and leaves the history and both registries unchanged. An admitted call extends the history by HandlerRun, StatsRecorded, EventLogged in that order. It is counted in every window and logged to every inbox, and it returns the handler's reply and error unchanged. |
| Microservice.Service.StatisticsTick | hw7_microservice/service.go:223-231 | Sends the current window stamped with the time. If the send succeeds the window is reset to empty; if it fails the client is unsubscribed and the loop stops. |
| Microservice.Service.LoggingStart | hw7_microservice/service.go:203-206 | The Logging handler registers a fresh listener and starts receiving from it. |
| Microservice.Service.LoggingStep | hw7_microservice/service.go:207-214 | As written: an empty inbox blocks. Otherwise the oldest event is taken and sent. A failed send ends the loop but leaves the listener registered, so the no-orphans invariant is lost. |
| Microservice.Service.LoggingStepFixed | hw7_microservice/service.go:207-214 | The intended step: a failed send unsubscribes the listener before returning, so every registered listener is still being drained. |
| Microservice.Service.LoggingCall | hw7_microservice/service.go:19-35 | A Logging stream call through the interceptor: the call's event is logged before the handler subscribes. The new listener starts with an empty inbox, and every older listener receives the event. A denied call changes no inbox. |
| Microservice.Service.StatisticsCall | hw7_microservice/service.go:19-35 | A Statistics stream call through the interceptor: the call is counted before the handler subscribes. The new client's window is empty, and every older window has recorded the call. A denied call changes no window. |
| Microservice.ThreeRecords | hw7_microservice/service.go:128-135 | Three calls of X by Y into an empty window count 3 for X and 3 for Y. |
| Microservice.StatisticsScenario | hw7_microservice/service.go:218-232 | A subscriber sees 3 and 3 after three calls, then an empty window on the next tick. |
| Microservice.OrphanedListenerScenario | hw7_microservice/service.go:203-214 | After a failed send, the next logged event is queued for a listener that nothing receives from. |
| DbExplorer.SlashFrom | hw6_db_explorer/db_explorer.go:20-21 | Returns the first `/` at or after a position, or the end of the path. |
| DbExplorer.TablePatternShape | hw6_db_explorer/db_explorer.go:20 | `^\/[^\/]+\/?$` accepts exactly `/name` and `/name/` with a non-empty name that has no slash. |
| DbExplorer.TableWithIdPatternShape | hw6_db_explorer/db_explorer.go:21 | `^\/[^\/]+\/.+` accepts exactly `/name/` followed by a non-newline character and anything after it. |
| DbExplorer.PatternsDisjoint | hw6_db_explorer/db_explorer.go:20-21 | No path matches both patterns, and neither pattern matches `/`. |
| DbExplorer.TablePathName | hw6_db_explorer/db_explorer.go:154 | On a table path, `strings.Split(path, "/")[1]` is the name between the slashes. |
| DbExplorer.TableWithIdPathParts | hw6_db_explorer/db_explorer.go:186-188 | On a table-with-id path, `params[1]` is the table and `params[2]` exists: it is the id up to the next slash. |
| DbExplorer.RouteOf | hw6_db_explorer/db_explorer.go:116-133 | Each branch of the switch, as an iff on the HTTP method and the pattern. Everything else is the 404 "unknown method". |
| DbExplorer.GetIntQueryParam | hw6_db_explorer/db_explorer.go:342-355 | Returns the default for an empty or non-integer value, and the parsed value otherwise. |
| DbExplorer.LimitParam | hw6_db_explorer/db_explorer.go:156-157 | A decimal limit is read back. An absent limit is 5 and an absent offset is 0. |
| DbExplorer.NormalizeColumn | hw6_db_explorer/db_explorer.go:87-96 | nullable iff the null field is "YES". A type containing "varchar", or equal to "text", becomes "string"; other types are unchanged. |
| DbExplorer.IdOfLastPri | hw6_db_explorer/db_explorer.go:97-99 | IdOf is "" when no column has key "PRI", and otherwise the name of a PRI column that no later PRI column follows. |
| DbExplorer.LoadTable | hw6_db_explorer/db_explorer.go:78-105 | The columns are normalised in the order listed. idName is IdOf the columns: the name of the last column whose key is "PRI", or "" when there is none. |
| DbExplorer.NewDbExplorer | hw6_db_explorer/db_explorer.go:49-114 | One table per listed name, with that name, its columns normalised in the order listed, and idName IdOf its columns. |
| DbExplorer.ParseField | hw6_db_explorer/db_explorer.go:421-441 | One body entry is rejected iff it names a column that does not accept it. Otherwise it is stored when it names a column and dropped when it does not. |
| DbExplorer.FillMissing | hw6_db_explorer/db_explorer.go:450-475 | For PUT, each column missing from the parsed body gets nil if nullable, else 0, 0.0 or "" by type. Columns of another type stay missing, and parsed entries are kept. |
| DbExplorer.ParseBody | hw6_db_explorer/db_explorer.go:406-478 | Details below. |
| DbExplorer.DecodedIntRejected | hw6_db_explorer/db_explorer.go:420-439 | A body as `json.Unmarshal` into `map[string]interface{}` produces it holds no int64, so a non-nil value for an int column is always rejected. |
| DbExplorer.ColumnsTextIsJoin | hw6_db_explorer/db_explorer.go:228-233 | `columns[2:]` is the back-quoted keys joined by ", ". |
| DbExplorer.PlaceholdersTextIsJoin | hw6_db_explorer/db_explorer.go:230-234 | `placeholders[:len-2]` is n `?` joined by ", ". |
| DbExplorer.AssignmentsTextIsJoin | hw6_db_explorer/db_explorer.go:278-282 | `keys[:len-1]` is the assignments joined by ",". |
| DbExplorer.InsertParts | hw6_db_explorer/db_explorer.go:224-231 | The loop builds one column and one placeholder per key, and the values in key order. |
| DbExplorer.BuildInsert | hw6_db_explorer/db_explorer.go:223-239 | An empty body is the `columns[2:]` panic. Otherwise the statement lists the back-quoted keys and as many `?`, and the kth value belongs to the kth key. |
| DbExplorer.UpdateParts | hw6_db_explorer/db_explorer.go:275-280 | The loop builds one "`k` = ? ," per key and the values in key order. |
| DbExplorer.BuildUpdate | hw6_db_explorer/db_explorer.go:272-287 | An empty body is the `keys[:len-1]` panic. Otherwise the statement is "update T set " plus one assignment per key, then "where id = " and the id. The values are in key order. |
| DbExplorer.PlaceholderCount | hw6_db_explorer/db_explorer.go:230-237 | The placeholder text holds exactly n `?`, one per value. |
| DbExplorer.RecordOfUnique | hw6_db_explorer/db_explorer.go:383-404 | The record of a row is determined by the row. |
| DbExplorer.ReadColumns | hw6_db_explorer/db_explorer.go:383-404 | A cell that fails its column's type assertion panics. Otherwise each cell is keyed by the name of the column at the same position, and a nil cell maps to nil. |
| DbExplorer.GetRowsData | hw6_db_explorer/db_explorer.go:357-381 | No rows gives NoRows. With onlyOne, the first row's record; otherwise every record in row order. A panic on any row is a panic. |
| Codegen.LineEnd | hw5_codegen/handlers_gen/codegen.go:275 | Returns the first newline at or after a position, or the end of the text. |
| Codegen.LastQuote | hw5_codegen/handlers_gen/codegen.go:275 | Returns the last double quote in a range, or none. |
| Codegen.FindQuotedOneLine | hw5_codegen/handlers_gen/codegen.go:275-278 | On a one-line tag, the match of `".*"` runs from the first quote to the last. |
| Codegen.FindQuotedSkip | hw5_codegen/handlers_gen/codegen.go:275 | The matcher skips over a prefix that has no quote. |
| Codegen.FindQuotedNone | hw5_codegen/handlers_gen/codegen.go:275 | Text without a quote has no match (""). |
| Codegen.Rules | hw5_codegen/handlers_gen/codegen.go:278-279 | The rules are at least one piece. No piece contains a comma or a quote. |
| Codegen.SplitPiecesFrom | hw5_codegen/handlers_gen/codegen.go:279 | A character absent from the text is absent from every piece of its split. |
| Codegen.QuotedMatch | hw5_codegen/handlers_gen/codegen.go:275-278 | For `prefix"body"suffix` with no other quotes or newlines, the match is `"body"`. |
| Codegen.StripQuotes | hw5_codegen/handlers_gen/codegen.go:278 | Removing the quotes from `"body"` gives body. |
| Codegen.RulesOfQuoted | hw5_codegen/handlers_gen/codegen.go:278-279 | The rule list is the quoted body split on commas. |
| Codegen.ReplaceAllConcat | hw5_codegen/handlers_gen/codegen.go:278 | ReplaceAll distributes over concatenation. |
| Codegen.StepPanics | hw5_codegen/handlers_gen/codegen.go:282-316 | Details below. |
| Codegen.StepDefault | hw5_codegen/handlers_gen/codegen.go:312-313 | One rule sets Default to the text from index 8 iff it is a `default` rule, and leaves it unchanged otherwise. |
| Codegen.StepParamName | hw5_codegen/handlers_gen/codegen.go:314-315 | One rule sets ParamName to the text from index 10 iff it is a `paramname` rule, and leaves it unchanged otherwise. |
| Codegen.FoldDefault | hw5_codegen/handlers_gen/codegen.go:281-317 | Default ends as the value of the last `default` rule, or keeps its old value when there is none. |
| Codegen.FoldParamName | hw5_codegen/handlers_gen/codegen.go:281-317 | ParamName ends as the value of the last `paramname` rule, or keeps its old value when there is none. |
| Codegen.FoldValidators | hw5_codegen/handlers_gen/codegen.go:281-311 | One new validator per adding rule, after the existing ones. Each new validator carries the field name, and Min/Max carry the parameter type. |
| Codegen.StepValidators | hw5_codegen/handlers_gen/codegen.go:283-310 | A `required`, `min`, `max` or `enum` rule appends exactly one validator built from the rule and the current ParamName; any other rule leaves the list alone. |
| Codegen.FoldValidatorAt | hw5_codegen/handlers_gen/codegen.go:281-311 | The validator of the ith rule sits after those of the earlier adding rules, and carries the ParamName the rules before it produced. |
| Codegen.ValidatorNamed | hw5_codegen/handlers_gen/codegen.go:283-316 | Details below. |
| Codegen.FoldValidatorContents | hw5_codegen/handlers_gen/codegen.go:281-316 | Details below (for every adding rule at once). |
| Codegen.ParamNameOrder | hw5_codegen/handlers_gen/codegen.go:283-315 | For `required,paramname=user_login,min=3`, the required validator keeps the old name and the min validator carries the new one. |
| Codegen.EnumMessage | hw5_codegen/handlers_gen/codegen.go:19-21 | ConcatValues of the enum values is their text with each `\|` replaced by ", ". |
| Codegen.Field.constructor | hw5_codegen/handlers_gen/codegen.go:402-406 | The field's literal: name, type, parameter name, with an empty default and no validators. |
| Codegen.Field.IsString | hw5_codegen/handlers_gen/codegen.go:321-323 | True iff the parameter type is "string". |
| Codegen.Field.IsInt | hw5_codegen/handlers_gen/codegen.go:325-327 | True iff the parameter type is "int"; an int field is never a string field. |
| Codegen.Field.ParseApiValidator | hw5_codegen/handlers_gen/codegen.go:277-319 | A panicking rule leaves ok false. Otherwise Validators is replaced wholesale by the rule-order list, and ParamName and Default are set by the fold. FieldName and ParamType never change. What each validator holds follows from FoldValidatorContents. |
| Codegen.IsAuth | hw5_codegen/handlers_gen/codegen.go:228-230 | True iff the `auth` instruction is set. |
| Codegen.IsValidateMethod | hw5_codegen/handlers_gen/codegen.go:232-234 | True iff the method instruction is non-empty. |
| Codegen.OfReceiverMembers | hw5_codegen/handlers_gen/codegen.go:386-391 | A receiver's group holds exactly that receiver's functions. |
| Codegen.OfReceiverAbsent | hw5_codegen/handlers_gen/codegen.go:386-391 | A receiver with no function has an empty group. |
| Codegen.GroupByReceiver | hw5_codegen/handlers_gen/codegen.go:385-391 | The keys are the receivers. Each group holds its receiver's functions in declaration order. |
| Codegen.DeriveShape | hw5_codegen/handlers_gen/codegen.go:400-407 | An embedded field, a field whose type is not a plain identifier and a field without a tag all panic. Of `A, B T` only `A` becomes a field. |
| Codegen.DeriveDefaults | hw5_codegen/handlers_gen/codegen.go:402-407 | Without a `paramname` rule the parameter name is the lowercased field name. Without a `default` rule the default is empty. |
| Codegen.BuildFields | hw5_codegen/handlers_gen/codegen.go:399-409 | A panic iff some field is malformed (no name, a non-identifier type, no tag) or its tag panics. Otherwise the fields are derived one by one, in order, each from its first name. |
| Codegen.BuildParamsStructures | hw5_codegen/handlers_gen/codegen.go:392-415 | A panic iff some function's parameter type names no struct of the file (the nil field list of the zero StructType is read) or some field of its struct panics, as in BuildFields. Otherwise, since processedParams is never written, there is one structure per function, duplicates included, in order. Each is named by the function's parameter type and holds the fields derived from that struct. |
| Tree.Stack.constructor | hw1_tree/main.go:93 | A zero Stack: the invariant holds and the stack is empty. |
| Tree.Stack.Init | hw1_tree/main.go:19-24 | All three slices are empty and the length is 0. |
| Tree.Stack.Push | hw1_tree/main.go:26-31 | Pushes one entry onto each slice and increments the length, keeping the three lengths equal. |
| Tree.Stack.Pop | hw1_tree/main.go:33-46 | On a non-empty stack, returns the top triple and leaves each slice without it. |
| Tree.Stack.IsEmpty | hw1_tree/main.go:48-50 | True iff the length is 0. |
| Tree.Stack.NextIsDotDot | hw1_tree/main.go:52-54 | On a non-empty stack, true iff the top name is "..". |
| Tree.PushPop | hw1_tree/main.go:26-46 | A pop undoes a push: the pushed triple comes back and the slices are as before. |
| Tree.LessEqRefl | hw1_tree/main.go:143 | String `<=` is reflexive. |
| Tree.LessEqTotal | hw1_tree/main.go:143 | String `<=` is total. |
| Tree.LessEqTrans | hw1_tree/main.go:143 | String `<=` is transitive. |
| Tree.LessEqAntisym | hw1_tree/main.go:143 | String `<=` is antisymmetric. |
| Tree.SortListing | hw1_tree/main.go:141-147 | The nested swap loop leaves the listing in non-increasing order of names, as a permutation of the input. |
| Tree.NoSwapKeeps | hw1_tree/main.go:142-145 | Without a swap, the least name of the scanned prefix moves on to j+1. |
| Tree.PassDone | hw1_tree/main.go:141-146 | A finished pass extends the sorted suffix by one. |
| Tree.SwapNeighbours | hw1_tree/main.go:144 | The swap exchanges names[j] and names[j+1], keeps the elements, and carries the minimum to j+1. |
| Tree.Swapped | hw1_tree/main.go:144 | Positions j and j+1 are exchanged and every other position is unchanged. |
| Tree.SwappedPermutes | hw1_tree/main.go:144 | An exchange keeps the multiset of entries. |
| Tree.SwappedKeeps | hw1_tree/main.go:142-145 | An exchange inside the unsorted prefix keeps the sorted suffix and carries the minimum. |
| Tree.SelectedMembers | hw1_tree/main.go:151-157 | An entry is pushed iff it is a directory, or a file with printFiles set. |
| Tree.PushListing | hw1_tree/main.go:151-157 | The selected entries go on the stack in listing order: their names, their kinds, and size 0 for a directory and the file size for a file. |
| Tree.SelectedNonIncreasing | hw1_tree/main.go:151-157 | Keeping some entries of a sorted listing keeps it sorted. |
| Tree.PopsAscending | hw1_tree/main.go:141-157 | A sorted listing, once pushed, pops in ascending order of names. |
| Tree.PopNames | hw1_tree/main.go:102-103 | n calls of Pop return the top n names, top first, and leave the slices without their top n entries. |
| Tree.PushThenPop | hw1_tree/main.go:102-157 | After the push loop, as many pops return the selected names in reverse listing order, ascending when the listing is sorted, and restore every slice. |
| Tree.PrintLines | hw1_tree/main.go:76-90 | Writes one "│\t" or "\t" per level below level-1, chosen by probels[i], then "└───" if end and "├───" otherwise. |
| Tree.IndentCounts | hw1_tree/main.go:77-83 | The indentation has one tab per level, and one bar per marked level. |
| Tree.PieceCounts | hw1_tree/main.go:78-82 | One level's piece has one tab, and a bar iff the level is marked. |
| Tree.MarkedSnoc | hw1_tree/main.go:77-83 | The marked levels grow by the last level when it is marked. |
| Tree.SizeLabelReads | hw1_tree/main.go:107-111 | The label is "(empty)" iff the size is 0. Otherwise it is "(" plus digits plus "b)", and the digits parse back to the size. |
| Tree.FileLineLabel | hw1_tree/main.go:107-111 | The line printed for a file reads "name (empty)" iff the size is 0. |
| Bench.DecodeSkips | hw3_bench/fast.go:38-42 | A null value or an unknown key leaves the user unchanged. |
| Bench.DecodeFails | hw3_bench/fast.go:43-73 | Decoding fails iff some member has a non-null value of the wrong kind under a known key, whatever the user held. |
| Bench.DecodeFailsPrefix | hw3_bench/fast.go:35-75 | Once a prefix of the members fails, the whole object fails. |
| Bench.DecodeLastWins | hw3_bench/fast.go:35-75 | Each field ends as the last non-null value given for it. A field the object does not give keeps the reused user's old value. |
| Bench.EmptyArrayNotNil | hw3_bench/fast.go:50-55 | An empty array on a nil slice gives an empty, non-nil slice. |
| Bench.User.constructor | hw3_bench/fast.go:165 | `User{}`: no browsers, empty email and name. |
| Bench.User.UnmarshalJSON | hw3_bench/fast.go:25-80 | The decoder loop succeeds iff the specification decode does. On success the user holds exactly the decoded fields. |
| Bench.Encode | hw3_bench/fast.go:81-112 | The buffer written piece by piece is the JSON text of the user's object. The fields are browsers, email and name, and a nil slice is null unless NilSliceAsEmpty is set. |
| Bench.BrowsersStep | hw3_bench/fast.go:92-97 | Each later element is written after a comma. |
| Bench.ArrayText | hw3_bench/fast.go:91-98 | The array text is "[" plus the quoted elements joined by "," plus "]". |
| Bench.RenderUser | hw3_bench/fast.go:81-112 | The encoded text field by field. |
| Bench.ObjectText | hw3_bench/fast.go:82-111 | The three prefixed fields between braces. |
| Bench.DecodeEncoded | hw3_bench/fast.go:25-112 | Decoding the encoded object gives back email, name and browsers. A nil slice written as null is skipped, so a reused user keeps its old browsers. |
| Bench.MaskedEmail | hw3_bench/fast.go:196 | The printed email contains no "@"; an email without "@" is printed unchanged. |
| Bench.ScanFails | hw3_bench/fast.go:166-170 | The search panics iff decoding some line fails. |
| Bench.ScanSeen | hw3_bench/fast.go:175-193 | A browser is counted iff it mentions Android or MSIE and belongs to the user of some line, printed or not. |
| Bench.ReusedBrowsers | hw3_bench/fast.go:165-167 | A line without browsers keeps the previous line's browsers, and with them the previous verdict. |
| Bench.FastSearch | hw3_bench/fast.go:148-202 | Details below. |
| Bench.ScanBrowsers | hw3_bench/fast.go:175-193 | isAndroid iff some browser mentions Android, isMSIE iff some browser mentions MSIE. The seen set gains exactly the matching browsers. |
| Bench.ScanStep | hw3_bench/fast.go:166-198 | One more line adds its found line when wanted, and its matching browsers. |
| Bench.UserAfterFailsPrefix | hw3_bench/fast.go:166-170 | A failure on an earlier line is a failure of the whole search. |
| I2S.Zero | hw8_i2s/i2s.go:44 | `reflect.New(t).Elem()` is a value of kind t. |
| I2S.Convert | hw8_i2s/i2s.go:17-80 | The specification of i2s. The target always keeps its kind, whatever the input. |
| I2S.StructFrom | hw8_i2s/i2s.go:24-35 | The field loop keeps the struct's kind. |
| I2S.SliceFrom | hw8_i2s/i2s.go:43-50 | The element loop keeps the slice's kind. |
| I2S.Cell.constructor | hw8_i2s/i2s.go:8 | A pointer to a value of a kind. |
| I2S.I2s | hw8_i2s/i2s.go:8-81 | Details below. |
| I2S.ConvertInto | hw8_i2s/i2s.go:17-80 | The recursive dispatch, with its field and element loops, computes exactly the specification outcome. |
| I2S.MismatchKeepsTarget | hw8_i2s/i2s.go:19-22 | A wrong dynamic type leaves the target unchanged and reports an error. The same holds at lines 38-41 and 53-56. |
| I2S.ScalarsVerbatim | hw8_i2s/i2s.go:52-74 | Strings, integral numbers and booleans of the right type are set verbatim, with no error. |
| I2S.StructWrites | hw8_i2s/i2s.go:24-35 | On success every field is written from its key. On failure at field e, fields before e are written, e carries the error, and later fields are untouched. |
| I2S.WrittenLater | hw8_i2s/i2s.go:24-35 | Writing one field does not change whether a later field counts as written. |
| I2S.FailedEarlier | hw8_i2s/i2s.go:24-35 | A failure found from field i+1 on is a failure from field i on. |
| I2S.ExtraKeysIgnored | hw8_i2s/i2s.go:27 | Map keys that name no field play no part. |
| I2S.AllFieldsFound | hw8_i2s/i2s.go:27-30 | A successful conversion had every field name among the keys. |
| I2S.SliceAppends | hw8_i2s/i2s.go:43-50 | The result is the existing elements followed by the converted elements, up to the first failure. |
| I2S.SliceResult | hw8_i2s/i2s.go:37-50 | A successful slice conversion keeps the target's elements and appends one converted value per input element, in order. |
| SearchServer.Wrap64 | hw4_test_coverage/client_test.go:102 | Go's int addition is in int64 range, and exact when the sum is. |
| SearchServer.Clamp | hw4_test_coverage/client_test.go:99-101 | The limit is capped at 25. |
| SearchServer.WindowInDataset | hw4_test_coverage/client_test.go:102-105 | With a non-negative offset the loop reads only rows that exist. |
| SearchServer.Serve | hw4_test_coverage/client_test.go:72-116 | The handler's response is exactly the specified one. |
| SearchServer.ServeWindow | hw4_test_coverage/client_test.go:98-115 | The clamp, the loop and the body are the specified window. |
| SearchServer.CollectRows | hw4_test_coverage/client_test.go:105-112 | The loop panics iff the offset is negative and below the end. Otherwise it collects the rows from offset up to end, or none. |
| SearchServer.TokenFirst | hw4_test_coverage/client_test.go:80-84 | 401 iff the AccessToken header is wrong. |
| SearchServer.BadQueryIff | hw4_test_coverage/client_test.go:86-96 | With the right token, 400 iff the limit or the offset is not an integer. |
| SearchServer.EndClamped | hw4_test_coverage/client_test.go:99-104 | The window ends either at the dataset size, or at most at 25 and at most at the limit. |
| SearchServer.WindowOverrun | hw4_test_coverage/client_test.go:98-115 | When offset plus the clamped limit (wrapped as int64) overruns the dataset, the body holds the rows from offset to the last one. |
| SearchServer.WindowRows | hw4_test_coverage/client_test.go:98-115 | With a window inside the dataset, the body is `[` plus the rows offset..end-1 joined by "," plus `]`, and the window has end-offset rows. |
| SearchServer.NegativeOffset | hw4_test_coverage/client_test.go:73-78 | A negative offset with a non-empty loop is recovered as 500 "Internal error". |
| SearchServer.DefaultRequestEmpty | hw4_test_coverage/client_test.go:38-41 | `limit=1&offset=1` returns `[]` on any dataset of two or more rows. |
| Text.Split | hw6_db_explorer/db_explorer.go:154 | `strings.Split` gives at least one piece, and no piece contains the separator. |
| Text.SplitJoin | hw5_codegen/handlers_gen/codegen.go:279 | Splitting a join of separator-free pieces gives the pieces back. |
| Text.JoinSplit | hw5_codegen/handlers_gen/codegen.go:279 | Joining the pieces of a split gives back the text. |
| Text.JoinSplitReplace | hw5_codegen/handlers_gen/codegen.go:307 | Joining the pieces of a split with another separator replaces each separator by it. |
| Text.ToLower | hw5_codegen/handlers_gen/codegen.go:405 | Lowercasing keeps the length and maps each character. |
| Text.ReplaceAllRemoves | hw3_bench/fast.go:196 | Replacing a character by text that lacks it removes every occurrence. |
| Text.Atoi | hw4_test_coverage/client_test.go:86 | `strconv.Atoi` succeeds only on an optional sign followed by digits, and its value is in int64 range. |
| Text.AtoiItoa | hw6_db_explorer/db_explorer.go:348 | Atoi reads back what Itoa writes, for every int64. |

Rows marked "Details below":

- **DbExplorer.ParseBody:**
  - PUT deletes the id key first.
  - The result is an error iff some remaining entry is rejected. The error is "field K have invalid type" for the first rejected key in iteration order.
  - POST fails when the id column survives validation.
  - Otherwise the result is the accepted named entries, and for PUT every column left out is filled.
- **Codegen.StepPanics:** a rule is handled without a slice panic iff it is one of these:
  - `required`;
  - a `min` or `max` rule of at least 4 characters;
  - an `enum` rule of at least 5;
  - a `default` rule of at least 8;
  - any rule of at least 9 characters other than the bare `paramname`.
- **Codegen.ValidatorNamed / Codegen.FoldValidatorContents:** the validator of the ith rule, at index (old count + adding rules before i), is:
  - `Required` with the field name and the ParamName in force, for `required`;
  - `Min` or `Max` with the text after the 4th character and the field's type, for `min`/`max`;
  - `Enum` with the text after the 5th character split on `|`, for `enum`.

  The ParamName in force is the value of the last `paramname` rule before i, or the field's initial ParamName when there is none.
- **Bench.FastSearch:**
  - It panics iff some line fails to decode.
  - Otherwise the output is "found users:", then one `[i] name <masked email>` line per wanted user, then the count of distinct matching browsers.
- **I2S.I2s:**
  - A non-pointer gives "out should be a pointer" and writes nothing.
  - A pointer's cell receives the conversion's value and the error is the conversion's error, in the source's wording.

## Left out

- hw2_signer is not part of this model. It is a goroutine pipeline over DataSignerCrc32 and DataSignerMd5, which are defined outside signer.go.
- cw1_uniq is not part of this model. It tests a `uniq` function defined outside main_test.go.
- hw7 transport:
  - The gRPC server, the listener, context cancellation, metadata and peer extraction, the mutexes, the goroutines and the ticker are not modelled.
  - The time and the peer address are inputs.
  - The JSON decoding of the ACL is not modelled; the ACL map is given.
- hw7 channels are inbox sequences. A blocking send is not modelled; an event waiting in the inbox stands in for it. `fmt` logging is left out.
- hw7 follows the code in two places where a reader might expect otherwise:
  - The unary interceptor runs the handler before recording statistics and logging.
  - A `consumer` key with several values is admitted on its first value.
- RegisterLogClient and RegisterStatClient: LogCount and StatCount are unbounded integers. In Go they are `int`, and `++` would wrap at the int64 maximum, after which a fresh id is no longer guaranteed. The uint64 counters of Stat do wrap in the model (Inc).
- hw7 `Statistics` and `Logging` are modelled one loop turn at a time (StatisticsTick, LoggingStep). The unbounded loop itself is not modelled.
- GetStat and StatisticsTick: in Go, `s := m.Stat[client]` copies only the Stat struct. Its ByMethod and ByConsumer maps stay shared with the registry. An addInvocation between getStat and resetStat (service.go:225-227) therefore alters the window being sent, and its counts are then lost at the reset. The model's windows are values and a tick is one atomic step, so neither effect is modelled.
- hw6 database and HTTP I/O are not modelled: SQL execution, row scanning, JSON (un)marshalling of bodies and responses, ioutil.ReadAll, and the response writes. Bodies, rows, column metadata and table lists are inputs.
- ParseBody accepts bodies holding VInt, which the program never sees: `json.Unmarshal` into `map[string]interface{}` turns every JSON number into a float64. In the program, then, a body value for an int column is accepted only when it is nil. DecodedIntRejected states that case: a decoded body that gives an int column a non-nil value is rejected.
- hw6 floats are opaque tags with no arithmetic. `0.0` for a missing float column is the tag `ZeroFloat`.
- hw6 handlers: getTables, getRowsFromTable, getRowFromTable, putRowToTable, postRowInTable and deleteRowFromTable are modelled only through their parts. The parts are routing, parameters, parseBody, SQL text and getRowsData. The composition with the database calls is I/O and is not modelled.
- StepPanics: the thresholds count characters, while Go's `len(rule)` and `rule[:n]` count UTF-8 bytes. The two agree on ASCII rules. On a rule with multi-byte characters they can differ: "ñañañañ" is 7 characters but 11 bytes, so Go falls through the switch, while Step and StepPanics report a panic. The same holds for Codegen.Step and the `rule[n:]` values it stores.
- hw5 generator plumbing is not modelled: `go/ast` parsing, `text/template` rendering, the validator templates, JSON decoding of the `apigen:api` comment, and file I/O. Parsed methods and struct fields are inputs.
- Text.ToLower: only ASCII letters are lowercased. `strings.ToLower` also folds other Unicode letters, which field names here do not contain.
- hw1 `dirTree` traversal, `Cd`, `os.Open`/`Readdir` and writes to `out` are not modelled. The loop walks the filesystem, so its helpers are modelled instead: the stack, the sort, the push loop, printLines and the size label. A listing is an input sequence.
- hw1 sizes are unbounded integers; int64 overflow of file sizes is not modelled.
- hw3 jlexer tokenising and its error positions are not modelled. A line is an already tokenised value, or None for text the lexer rejects. String escaping by jwriter is the `quote` parameter.
- hw3 file reading and the splitting into lines are inputs.
- hw3 regexps are literal substring tests.
- hw3 seenBrowsers is a set of strings, and Go's int count of it is unbounded.
- hw3 writes already printed before a decoding panic are not modelled. The model returns None for the whole output.
- hw3 `out.Browsers = nil` after a null browsers value (fast.go:45-47) is not modelled. That branch is unreachable, because the null value is skipped at line 38.
- hw3 partial writes to the user on a decoding error are not modelled, because FastSearch panics on the error.
- hw8 reflection becomes a kind descriptor. A float64 is modelled by an integral value, so the truncation `int64(d)` at i2s.go:66 is the identity. Fractional and out-of-range floats are not modelled.
- hw8 the message "usuppported type: " keeps the source's spelling. The kind name of an unsupported kind is an input.
- I2S.I2s: a struct with an unexported field, where `Addr().Interface()` panics (i2s.go:32), cannot be expressed: every field of a struct kind is settable. A nil typed pointer, which gives "usuppported type: invalid" at i2s.go:14 and 77, cannot be expressed either: every Cell points at a value.
- I2S.I2s: a target of an unsupported kind is a value the model does not inspect further. Map, pointer and interface targets are all this one case.
- hw4 the XML dataset load, `Row.convert` together with `json.Marshal` of a user (the `marshal` parameter), the marshalling panic that cannot occur for these rows, the `httptest` server, the `fmt.Println(err)` in the deferred recover (client_test.go:75), and the SearchClient tests are not modelled.
- SearchServer.WindowRows: the window ends at the clamped limit itself, not at offset plus limit, as the code is written. So `limit=1&offset=1` returns no rows (DefaultRequestEmpty). The model states this behaviour and does not claim another.

## Findings

| source | as written | input that shows it | evidently intended | confidence | as-written member | corrected member |
|---|---|---|---|---|---|---|
| hw7_microservice/service.go:210-213 | On a send error the Logging loop returns without unsubscribing its listener. | Send fails once, then logEvent sends to that listener. The listener is still registered with no loop receiving, so the next authorised call would block forever in logEvent. | Unsubscribe the listener before returning, as Statistics does at lines 228-230. | not executed | Microservice.Service.LoggingStep | Microservice.Service.LoggingStepFixed |
