# Verification models

This project models the parts of the repository with real invariants, and proves what they promise.
There is one module per source component, and a module for each standard a component implements.

- **JSON** (`JsonValue`, `JsonEquality`, `JsonPointer`, `JsonPointerForms`, `JsonPatch`, `JsonOperations`,
  `JsonDiff`, `JsonDifferences`, `JsonRoundTrip`, `JsonMerge`, `JsonDestroy`, `StringOrder`): values, pointers,
  `patch`, `diff`, `merge_patch` and the destructor of the vendored JSON library. `diff` and `patch` run as
  methods with the source's loops; they are proved against recursive functions, and the law that connects them
  is proved about those functions. What the functions mean is said apart from them: equality by identity and by
  the nearest double, operations and merge patches place by place.
- **Prepared statements** (`PreparedSpec`, `PreparedStatements`, `PreparedRuns`, `PreparedEdits`): what an execution does to
  statement ids and to the server, as functions; and operations, shared statement ids and the session of the
  MySQL connector as classes on the heap. The invariant `Session.Valid` says who holds which id and what the
  server has prepared under it; every method keeps it and does what the functions say, `wait()` at once and
  `cont()` step by step. `PreparedRuns.Run` drives any script of operations and proves that the cache is
  transparent for operations that can be sent, and that in any script an execution does what a direct one
  does, except for those that a condition on the script (`Odd`) singles out exactly.
- **Digests** (`Words`, `BlockStream`, `Sha1Spec`, `Sha1`, `Md5Spec`, `Md5`): the streaming hashers as classes
  over arrays, refining the definitions of FIPS 180-4 and RFC 1321.
- **Results** (`ResultCache`): result sets cached while a session goes on to the next command.
- **Session pool** (`SessionPool`): sessions shared by clients, and end-points that are avoided for a while.
- **Worker pool** (`WorkerPool`, `WorkerTimeouts`, `WorkerFairness`): dispatcher and workers as a protocol of steps, with an
  inductive invariant, conservation over runs, progress of workers and of the dispatcher in every fair run, and
  the exact condition under which the dispatcher gets stuck. The dispatcher is the text in `updateNewMessage`, which is compiled out at present.
- **Text** (`IniSpec`, `Ini`, `IniRoundTrip`, `ShellQuote`): the INI parser on its line buffer, in place,
  against a fold of one line function; and the shell quoter against the quoting rules of the shell.

## Where the code does not do what it says

- `diff` and `patch`: the documentation promises `source.patch(diff(source, target)) == target` for all
  values. It holds exactly if the target contains no NaN and no discarded value (`PatchWithDiff`,
  `NaNIsNotReached`): such a target does not even equal itself.
- operator== of JSON values is not transitive, because integers are rounded to floats (`RoundingClash`) and
  unsigned integers are cast to signed ones (`WrappingClash`). `EqTransitive` says exactly for which values the
  two equalities on the way imply the third.
- The prepare state of an operation goes on even when no command is sent. A modify operation without updates
  does nothing when it is executed directly, and one with empty criteria throws; from some execution on both
  tell the server to run a statement that was never prepared for them (`EmptyModify`, `EmptyCriteria`). An
  accepted prepared execution differs from a direct one exactly for operations that cannot be sent
  (`PreparedIsDirect`), and these two are all such operations (`Sendable`).
- When an execution throws, the operation stays initialised. If there is no reply, because building the command
  threw or the session could not make room for it, the next execution sends nothing (`BlockedOnce`). If the
  server answered with an error, the reply is kept, and every later execution throws the same error again
  without sending anything, whatever was edited in between (`ErrorStays`, and `EmptyModify` once more). Copies
  are not affected. `Op.Execute` and `PreparedRuns.Run` say exactly where this and the former make a difference.
- A result whose first `next_result()` comes after the session has prepared for another command skips its
  first result set (`FirstSetSkipped`). `OpenedIsNothingNew` gives the exact condition; the public result
  classes that have rows ask for the first result set when they are constructed.
- `get_row()` answers that there are no more rows when a filter drops all rows of one batch
  (`RowOverlooked`, and exactly when in `GetRow`).
- `prepare_for_cmd` fails exactly if the reply of the current result ends with an error (`PrepareForCmd`), so
  that the next command fails with it (`ErrorPassedOn`); rows are not lost even then. If the error stands in
  place of a further result set, all later commands fail until the result is destroyed (`LateErrorStays`).
- The SHA-1 counter is right exactly for chunks shorter than 2^32 bytes (`CountExact`). The loop over whole
  blocks ends for chunks that `ChunkFits` describes (`WholeBlocks`), and never ends for any other chunk that
  fills the buffer (`LongChunkNeverEnds`).
- The dispatcher of the worker pool waits for a flag that the worker it waits for can reset again
  (`CanGetStuck`). Otherwise it is always done in the end (`EventuallyDispatched`), provided that the mutex is
  fair (`WeakIsNotEnough`).
- The buffer `escapeshellarg` allocates has room exactly if some character is not a quote (`WorstCase`).

## Model

| member | source | states |
|---|---|---|
| `JsonValue.EqReflexive` | old.old/src.old/ext/nlohmann/json.hpp:6122-6188 | a value equals itself exactly if no NaN and no discarded value is in it |
| `JsonValue.EqComparable` | old.old/src.old/ext/nlohmann/json.hpp:6122-6188 | equal values contain no NaN and no discarded value |
| `JsonValue.EqTransitive` | old.old/src.old/ext/nlohmann/json.hpp:6122-6188 | given a == b and b == c, a == c holds exactly if nowhere inside a float stands between different integers, or an integer between a float and an integer it becomes by a wrapping cast |
| `JsonValue.RoundingClash` | old.old/src.old/ext/nlohmann/json.hpp:6162-6177 | transitivity fails for a concrete triple because an integer is rounded |
| `JsonValue.WrappingClash` | old.old/src.old/ext/nlohmann/json.hpp:6178-6185 | it fails for another without rounding, because a cast wraps around |
| `JsonEquality.EqIsEquality` | old.old/src.old/ext/nlohmann/json.hpp:6122-6188 | where numbers meet numbers of their own kind only, values are equal exactly if they are identical and hold no NaN and no discarded value |
| `JsonEquality.EqNumberFree` | old.old/src.old/ext/nlohmann/json.hpp:6122-6188 | if one of two values holds no number and no discarded value, they are equal exactly if they are identical |
| `JsonEquality.EqSymmetric` | old.old/src.old/ext/nlohmann/json.hpp:6122-6188 | operator== is symmetric for all values |
| `JsonEquality.SignedAgainstUnsigned` | old.old/src.old/ext/nlohmann/json.hpp:6178-6185 | a signed and an unsigned integer are equal exactly if they are the same modulo 2^64 |
| `JsonEquality.WholeAgainstFloat` | old.old/src.old/ext/nlohmann/json.hpp:6162-6177 | an integer equals a float exactly if the float is the double nearest to it, the even one of two |
| `JsonEquality.RoundedIsNearest` | old.old/src.old/ext/nlohmann/json.hpp:6162-6177 | conversion to double yields the nearest number of 53 significant bits, and on a tie the even one |
| `JsonPointer.ReplaceSubstring` | old.old/src.old/ext/nlohmann/detail/json_pointer.hpp:815-824 | the in-place loop with find computes simultaneous replacement of all occurrences from the left |
| `JsonPointer.EscapeIsEscaped` | old.old/src.old/ext/nlohmann/detail/json_pointer.hpp:827-832 | two successive substitutions amount to escaping character by character, as section 3 of RFC 6901 defines it |
| `JsonPointer.UnescapeEscape` | old.old/src.old/ext/nlohmann/detail/json_pointer.hpp:826-839 | unescaping undoes escaping for every token: the order of the two substitutions is right |
| `JsonPointer.SplitString` | old.old/src.old/ext/nlohmann/detail/json_pointer.hpp:740-800 | the scanning loop computes the split by recursion over tokens, with the same errors in the same order |
| `JsonPointer.CheckEscapes` | old.old/src.old/ext/nlohmann/detail/json_pointer.hpp:778-792 | a token passes exactly if every tilde is followed by 0 or 1 |
| `JsonPointer.PointerRoundTrip` | old.old/src.old/ext/nlohmann/detail/json_pointer.hpp:47-77 | writing out any list of tokens and splitting the text gives the tokens back |
| `JsonPointer.IndexRoundTrip` | old.old/src.old/ext/nlohmann/detail/json_pointer.hpp:333-376 | the decimal text of an index is read as that index, up to the greatest size |
| `JsonPointer.IndexInjective` | old.old/src.old/ext/nlohmann/detail/json_pointer.hpp:333-376 | two tokens read as the same index are the same token: there is no second spelling |
| `JsonPointerForms.SplitInverse` | old.old/src.old/ext/nlohmann/detail/json_pointer.hpp:740-800 | a string is read as a list of tokens exactly if it is how that list is written: there is no second spelling |
| `JsonPointerForms.EscapeUnescape` | old.old/src.old/ext/nlohmann/detail/json_pointer.hpp:826-839 | escaping undoes unescaping for every well-formed token |
| `JsonPointerForms.EscapeCons` | old.old/src.old/ext/nlohmann/detail/json_pointer.hpp:827-832 | tilde becomes ~0, slash becomes ~1, and every other character stays |
| `JsonPointerForms.Examples` | old.old/src.old/ext/nlohmann/detail/json_pointer.hpp:47-77 | the examples of section 5 of RFC 6901 that need escaping, and decimal texts |
| `JsonPointerForms.IndexIsDecimal` | old.old/src.old/ext/nlohmann/detail/json_pointer.hpp:333-376 | a token is an index exactly if it is the decimal text of a number below the greatest size |
| `JsonPointerForms.NoIndex` | old.old/src.old/ext/nlohmann/detail/json_pointer.hpp:333-376 | the errors for leading zeros, letters, nothing and numbers that are too big |
| `JsonPointerForms.NoPointer` | old.old/src.old/ext/nlohmann/detail/json_pointer.hpp:745-792 | the errors for a pointer without slash and for one with a bad escape |
| `JsonPatch.Patch` | old.old/src.old/ext/nlohmann/json.hpp:8174-8434 | the loop over the patch array equals decoding and applying the operations one by one, with all errors |
| `JsonPatch.DecodeEncode` | old.old/src.old/ext/nlohmann/json.hpp:8310-8346 | reading the document of an operation under a path prefix gives the operation, moved under the prefix |
| `JsonPatch.PatchFromEncoded` | old.old/src.old/ext/nlohmann/json.hpp:8307-8431 | a patch array that was written from operations has the effect of the operations |
| `JsonPatch.ApplyAllConcat` | old.old/src.old/ext/nlohmann/json.hpp:8307-8431 | applying a concatenation of patches is applying one after the other; an error ends it |
| `JsonPatch.AtPut` | old.old/src.old/ext/nlohmann/detail/json_pointer.hpp:529-563 | what was put at a path is found there |
| `JsonPatch.PutFrames` | old.old/src.old/ext/nlohmann/json.hpp:8212-8299 | a change at a path leaves everything at paths apart from it as it was |
| `JsonPatch.ApplyBelow` | old.old/src.old/ext/nlohmann/json.hpp:8212-8299 | an operation moved under a path does to the value there what it does to the value alone |
| `JsonPatch.ApplyAllBelow` | old.old/src.old/ext/nlohmann/json.hpp:8307-8431 | so does a whole patch |
| `JsonOperations.MoveIsTwoSteps` | old.old/src.old/ext/nlohmann/json.hpp:8369-8384 | a patch with a move does what "remove" and then "add" of what was there do; without a source it fails as reading it does |
| `JsonOperations.CopyIsAdd` | old.old/src.old/ext/nlohmann/json.hpp:8386-8400 | a patch with a copy does what "add" of what is there does |
| `JsonOperations.TestDecides` | old.old/src.old/ext/nlohmann/json.hpp:8401-8424 | a test succeeds exactly if the value is there and equal, never changes the document, and fails with error 501 unless the pointer is malformed |
| `JsonOperations.ReplaceIsTwoSteps` | old.old/src.old/ext/nlohmann/json.hpp:8362-8367 | in an object, "replace" is "remove" and "add" at the same place |
| `JsonOperations.MovePlaces` | old.old/src.old/ext/nlohmann/json.hpp:8369-8384 | what was moved is at its new place and gone from the old one, and every place apart from both is as it was |
| `JsonOperations.MoveRenames` | old.old/src.old/ext/nlohmann/json.hpp:8369-8384 | within one object a move gives a member another name |
| `JsonOperations.MoveToItself` | old.old/src.old/ext/nlohmann/json.hpp:8369-8384 | a move of a value onto its own place changes nothing, in objects and in arrays |
| `JsonOperations.CopyPlaces` | old.old/src.old/ext/nlohmann/json.hpp:8386-8400 | what was copied is at both places, and every place apart is as it was |
| `JsonOperations.AddMember` | old.old/src.old/ext/nlohmann/json.hpp:8212-8246 | a member is set or new, and everything else is as it was |
| `JsonOperations.AddElement` | old.old/src.old/ext/nlohmann/json.hpp:8248-8267 | an element is inserted before an index or at the end, and exactly the later ones move up by one |
| `JsonOperations.AddThenAt` | old.old/src.old/ext/nlohmann/json.hpp:8212-8271 | what was added is found at its place, even if parents were created on the way |
| `JsonOperations.AddFrames` | old.old/src.old/ext/nlohmann/json.hpp:8212-8271 | an addition leaves every place apart from it alone, unless it inserts into an array |
| `JsonOperations.AddCreates` | old.old/src.old/ext/nlohmann/json.hpp:8229-8232 | a null on the way becomes an array with nulls up to an index, or else an object |
| `JsonOperations.RemoveMember` | old.old/src.old/ext/nlohmann/json.hpp:8274-8295 | a member that was removed is gone, and everything else is as it was |
| `JsonOperations.RemoveElement` | old.old/src.old/ext/nlohmann/json.hpp:8296-8300 | an element is removed, and exactly the later ones move down by one |
| `JsonOperations.RemoveFrames` | old.old/src.old/ext/nlohmann/json.hpp:8274-8295 | removing a member leaves every place apart from it alone |
| `JsonOperations.AddThenRemove` | old.old/src.old/ext/nlohmann/json.hpp:8212-8300 | removing what was added gives the document back, in objects and in arrays |
| `JsonOperations.RemoveThenAdd` | old.old/src.old/ext/nlohmann/json.hpp:8212-8300 | adding what was removed gives the document back, in objects and in arrays |
| `JsonOperations.MissingMember` | old.old/src.old/ext/nlohmann/json.hpp:8274-8424 | the errors of the operations for a member that is not there |
| `JsonOperations.MissingElement` | old.old/src.old/ext/nlohmann/json.hpp:8248-8424 | the errors of the operations for an index behind the end |
| `JsonOperations.NoPlace` | old.old/src.old/ext/nlohmann/json.hpp:8212-8300 | the errors for values that are no containers, for the place behind the last element and for the root |
| `JsonOperations.DecodeDescribed` | old.old/src.old/ext/nlohmann/json.hpp:8310-8346 | an operation is read exactly from an object with its name, its path, and the value or source it needs |
| `JsonOperations.NoPatch` | old.old/src.old/ext/nlohmann/json.hpp:8301-8346 | what is no array of objects with a string "op" is no patch, with the errors |
| `JsonDiff.Diff` | old.old/src.old/ext/nlohmann/json.hpp:8470-8592 | the loops that append to and insert into the result emit exactly the specified operations, written under the path |
| `JsonDifferences.DiffIsCalledFor` | old.old/src.old/ext/nlohmann/json.hpp:8470-8592 | every operation of a diff replaces a value by the different one of the target, removes what the target lacks or adds what the source lacks; containers of one kind are never replaced as a whole |
| `StringOrder.LeqMeans` | old.old/src.old/ext/nlohmann/json.hpp:8541-8578 | the order in which members are walked: the first difference decides, or else the length |
| `JsonDiff.DiffElements` | old.old/src.old/ext/nlohmann/json.hpp:8496-8504 | common elements of two arrays are patched in place, in index order |
| `JsonDiff.DiffRemovals` | old.old/src.old/ext/nlohmann/json.hpp:8509-8521 | inserting each removal in front of the earlier ones lists them from the highest index down |
| `JsonDiff.DiffAppends` | old.old/src.old/ext/nlohmann/json.hpp:8523-8533 | what the target has in excess is appended in order |
| `JsonDiff.DiffObjects` | old.old/src.old/ext/nlohmann/json.hpp:8538-8578 | members of the source are patched or removed, then those only the target has are added |
| `JsonRoundTrip.EqReconciled` | old.old/src.old/ext/nlohmann/json.hpp:8470-8592 | the value reached, which keeps parts of the source that compare equal, equals the target exactly if the target is comparable |
| `JsonRoundTrip.ReconciledUnmixed` | old.old/src.old/ext/nlohmann/json.hpp:8470-8592 | nothing of the source is left where numbers stand opposite numbers of their own kind only |
| `JsonRoundTrip.DiffApplies` | old.old/src.old/ext/nlohmann/json.hpp:8470-8592 | every operation of a diff succeeds, in order, and together they lead from the source to the reconciled value |
| `JsonRoundTrip.ArrayDiffApplies` | old.old/src.old/ext/nlohmann/json.hpp:8494-8536 | this for arrays that shrink or grow: no removal moves an element that is still to be removed |
| `JsonRoundTrip.ObjectDiffApplies` | old.old/src.old/ext/nlohmann/json.hpp:8538-8578 | this for objects |
| `JsonRoundTrip.DiffAtPlace` | old.old/src.old/ext/nlohmann/json.hpp:8470-8592 | diff(s, t, p), written as a patch document, succeeds on any document with s at p, changes the value there only, and makes it equal t exactly if t is comparable |
| `JsonRoundTrip.PatchWithDiff` | old.old/src.old/ext/nlohmann/json.hpp:8436-8468 | source.patch(diff(source, target)) never fails, and equals target exactly if target holds no NaN and no discarded value; it is identical to target if numbers stand opposite numbers of their own kind only |
| `JsonRoundTrip.NaNIsNotReached` | old.old/src.old/ext/nlohmann/json.hpp:8436-8468 | a concrete target that the law fails for |
| `JsonRoundTrip.EmptyDiff` | old.old/src.old/ext/nlohmann/json.hpp:8476-8480 | the patch is empty exactly if the values are equal |
| `JsonRoundTrip.EmptyDiffUnmixed` | old.old/src.old/ext/nlohmann/json.hpp:8476-8480 | for such values the patch is empty exactly if they are identical and comparable |
| `JsonMerge.MergePatch` | old.old/src.old/ext/nlohmann/json.hpp:8645-8669 | erasing and merging members one after the other computes the MergePatch function of section 2 of RFC 7396 |
| `JsonMerge.AnyOrder` | old.old/src.old/ext/nlohmann/json.hpp:8645-8669 | the loop of RFC 7396 gives the same result in whatever order the pairs of the patch come |
| `JsonMerge.Idempotent` | old.old/src.old/ext/nlohmann/json.hpp:8645-8669 | applying a merge patch twice gives the same value as once |
| `JsonMerge.DeletesAndKeeps` | old.old/src.old/ext/nlohmann/json.hpp:8611-8628 | deleted members are gone, members the patch does not name are untouched, and no others appear |
| `JsonMerge.ReplacesWhole` | old.old/src.old/ext/nlohmann/json.hpp:8645-8669 | a patch that is no object replaces the target |
| `JsonMerge.ValueSet` | old.old/src.old/ext/nlohmann/json.hpp:8645-8669 | wherever the patch has a value that is neither an object nor null, the result has that value |
| `JsonMerge.NullDeletes` | old.old/src.old/ext/nlohmann/json.hpp:8645-8669 | wherever the patch has null, nothing is left |
| `JsonMerge.ObjectStays` | old.old/src.old/ext/nlohmann/json.hpp:8645-8669 | wherever the patch has an object, the result has one |
| `JsonMerge.Untouched` | old.old/src.old/ext/nlohmann/json.hpp:8645-8669 | a place of any depth that the patch does not name is as it was, be it there or not |
| `JsonDestroy.Drain` | old.old/src.old/ext/nlohmann/json.hpp:1142-1169 | the loop over the explicit stack ends, pops every value of the forest once, and nests destructors one level only |
| `JsonDestroy.Destroy` | old.old/src.old/ext/nlohmann/json.hpp:1122-1210 | every descendant is popped exactly once, and the depth of destructor calls does not grow with the tree |
| `JsonDestroy.DescendantsArePlaces` | old.old/src.old/ext/nlohmann/json.hpp:1122-1169 | what is popped are exactly the values at the places inside, at any depth |
| `JsonDestroy.ChildrenAreInside` | old.old/src.old/ext/nlohmann/json.hpp:1142-1169 | every element of an array and every member of an object is moved to the stack, and nothing else |
| `PreparedSpec.NextIsNew` | src/ext/mysql_cpp/common/session.h:375-408 | an id handed out is not live already and not zero, as long as the greatest number is not in use |
| `PreparedSpec.NextWraps` | src/ext/mysql_cpp/common/session.h:400-408 | with nothing to recycle the allocator wraps to zero exactly if 0xFFFFFFFF is in use |
| `PreparedSpec.EditKeepsStatement` | src/ext/mysql_cpp/common/op_impl.h:677-748 | an edit after which a statement still counts as prepared leaves definition and limit clause as they were |
| `PreparedSpec.EditsOutdate` | src/ext/mysql_cpp/common/op_impl.h:677-748 | edits of limit, offset and parameters outdate a statement exactly if it would be prepared differently |
| `PreparedSpec.CompletedWhenSent` | src/ext/mysql_cpp/common/op_impl.h:293-326 | what an execution comes to is the same before and after it sends a command, be it answered, refused or impossible to build; and one command less is left |
| `PreparedSpec.OddIsNotDirect` | src/ext/mysql_cpp/common/op_impl.h:214-236 | if prepared statements are up to date, the executions that differ from direct ones are exactly those with something left of the last one that makes a difference, and accepted prepared ones of operations that cannot be sent |
| `PreparedStatements.Session.CreateStmtId` | src/ext/mysql_cpp/common/session.h:375-408 | no id without support or room; else the least id to be cleaned up or one above the greatest live one, and the server forgets the others |
| `PreparedStatements.Session.CreateFor` | src/ext/mysql_cpp/common/session.h:375-408 | seen from operations the id is new, there is one exactly if there is room, and no statement in use is touched |
| `PreparedStatements.Session.ReleaseStmtId` | src/ext/mysql_cpp/common/session.h:414-418 | the id is no longer live and waits to be cleaned up |
| `PreparedStatements.Session.ErrorStmtId` | src/ext/mysql_cpp/common/session.h:424-428 | the id is no longer live, and the number of ids is capped at what is live |
| `PreparedStatements.Session.CleanUpStmtId` | src/ext/mysql_cpp/common/session.h:433-447 | the loop deallocates exactly the ids that wait |
| `PreparedStatements.Session.LiveIdsAreHeld` | src/ext/mysql_cpp/common/session.h:292-297 | in every valid session the live ids are exactly those held by existing operations |
| `PreparedStatements.IdsWithout` | src/ext/mysql_cpp/common/op_impl.h:167-172 | letting go of a shared id ends it exactly if nobody else holds it |
| `PreparedStatements.Op.constructor` | src/ext/mysql_cpp/common/op_impl.h:125-127 | a new operation holds no id and is to be executed directly first |
| `PreparedStatements.Op.Clone` | src/ext/mysql_cpp/common/op_impl.h:136-140 | a copy shares the id, so that neither holder is the only one any more, and the session stays valid |
| `PreparedStatements.Op.Destroy` | src/ext/mysql_cpp/common/op_impl.h:142-145 | an id goes to cleanup when its last holder is destroyed, and not before |
| `PreparedStatements.Op.CreateStmtId` | src/ext/mysql_cpp/common/op_impl.h:153-165 | afterwards the id is held by this operation alone, or there is none because the session has none to give |
| `PreparedStatements.Op.ReleaseStmtId` | src/ext/mysql_cpp/common/op_impl.h:167-172 | the session loses the id exactly if this was its only holder |
| `PreparedStatements.Op.ResetState` | src/ext/mysql_cpp/common/op_impl.h:180-189 | after a refusal the operation executes directly, and the cap on ids has strictly decreased if it held one alone |
| `PreparedStatements.Op.UsePreparedStatement` | src/ext/mysql_cpp/common/op_impl.h:504-546 | the three-state machine: when the statement is used, when an id is made and that it is then unshared, when it is let go |
| `PreparedStatements.Op.OnlyHolder` | src/ext/mysql_cpp/common/op_impl.h:153-165 | an id whose count is one is held by no other operation |
| `PreparedStatements.Op.DoSendCommand` | src/ext/mysql_cpp/common/op_impl.h:2321-2340 | a direct command prepares this operation as it is now under its id and touches no statement of another operation |
| `PreparedStatements.Op.SendPreparedCommand` | src/ext/mysql_cpp/common/op_impl.h:377-390 | the prepared path is taken exactly with a prepared state and an id, and a refusal needs an id |
| `PreparedStatements.Op.PreparedIsDirect` | src/ext/mysql_cpp/common/op_impl.h:371-402 | running an up-to-date statement is executing directly, exactly if the operation can be sent |
| `PreparedStatements.Op.Dispatch` | src/ext/mysql_cpp/common/op_impl.h:233-235 | what the execution comes to is unchanged by sending a command of it, and one command less is to be sent |
| `PreparedStatements.Op.Init` | src/ext/mysql_cpp/common/op_impl.h:214-236 | a command is sent only if that was not done already and the session has room; an exception on the way leaves no reply and nothing to be sent |
| `PreparedStatements.Op.Receive` | src/ext/mysql_cpp/common/op_impl.h:440-458 | what the reply says is what the execution comes to; an error is said again every time |
| `PreparedStatements.Op.Restart` | src/ext/mysql_cpp/common/op_impl.h:278-287 | after a refusal the operation is as before a first execution, and what remains to be done amounts to the whole |
| `PreparedStatements.Op.Cont` | src/ext/mysql_cpp/common/op_impl.h:254-290 | a step sends what it takes off the number of commands still to be sent, and either leaves what the execution comes to as it was, or is its end and yields it |
| `PreparedStatements.Op.Drive` | src/ext/mysql_cpp/common/op_impl.h:254-290 | any number of steps, with replies that arrive at any time, sends at most two commands, and when it ends it has the outcome of a whole execution |
| `PreparedStatements.Op.Wait` | src/ext/mysql_cpp/common/op_impl.h:293-326 | from any point of an execution on, waiting sends exactly what is still to be sent and yields what the execution comes to; a kept error is thrown again |
| `PreparedStatements.Op.GetReply` | src/ext/mysql_cpp/common/op_impl.h:473-495 | the reply is handed over, and the operation is ready to send its command again |
| `PreparedStatements.Op.Execute` | src/ext/mysql_cpp/common/op_impl.h:334-344 | registry, state, id, what is left and effect are those of the pure function, with at most two commands; the effect is that of direct execution exactly if the execution is not odd, be the operation ready, initialised or with an error kept |
| `PreparedStatements.Op.Change` | src/ext/mysql_cpp/common/op_impl.h:818-835 | any edit keeps the session valid and moves definition and state as specified |
| `PreparedStatements.Op.AddSort` | src/ext/mysql_cpp/common/op_impl.h:818-828 | a sort key is appended; back to direct execution |
| `PreparedStatements.Op.ClearSort` | src/ext/mysql_cpp/common/op_impl.h:830-835 | the state changes only if there were sort keys |
| `PreparedStatements.Op.SetHaving` | src/ext/mysql_cpp/common/op_impl.h:916-920 | the condition is replaced; back to direct execution |
| `PreparedStatements.Op.ClearHaving` | src/ext/mysql_cpp/common/op_impl.h:922-927 | the state changes only if there was a condition |
| `PreparedStatements.Op.AddGroupBy` | src/ext/mysql_cpp/common/op_impl.h:969-973 | an expression is appended; back to direct execution |
| `PreparedStatements.Op.ClearGroupBy` | src/ext/mysql_cpp/common/op_impl.h:975-980 | the state changes only if there was a grouping |
| `PreparedStatements.Op.SetProj` | src/ext/mysql_cpp/common/op_impl.h:1041-1045 | the projection document is replaced; back to direct execution |
| `PreparedStatements.Op.AddProj` | src/ext/mysql_cpp/common/op_impl.h:1047-1051 | a projection is appended; back to direct execution |
| `PreparedStatements.Op.ClearProj` | src/ext/mysql_cpp/common/op_impl.h:1053-1058 | the document stays, and the state changes only if there were projections |
| `PreparedStatements.Op.SetWhere` | src/ext/mysql_cpp/common/op_impl.h:1203-1208 | the criteria are replaced, even by an empty string, which cannot be sent then; back to direct execution |
| `PreparedStatements.Op.SetLockMode` | src/ext/mysql_cpp/common/op_impl.h:1210-1217 | the lock mode is replaced; back to direct execution |
| `PreparedStatements.Op.ClearLockMode` | src/ext/mysql_cpp/common/op_impl.h:1219-1224 | back to the default and to direct execution |
| `PreparedStatements.Op.AddOperation` | src/ext/mysql_cpp/common/op_impl.h:2495-2521 | an update is appended; back to direct execution |
| `PreparedStatements.Op.ClearOperations` | src/ext/mysql_cpp/common/op_impl.h:2524-2529 | the state changes only if there were updates |
| `PreparedStatements.Op.AddSet` | src/ext/mysql_cpp/common/op_impl.h:2928-2937 | a value is set or replaced; back to direct execution |
| `PreparedStatements.Op.ClearSets` | src/ext/mysql_cpp/common/op_impl.h:2939-2943 | back to direct execution in any case |
| `PreparedStatements.Op.SetLimit` | src/ext/mysql_cpp/common/op_impl.h:677-693 | to be prepared again only if it was prepared without limits |
| `PreparedStatements.Op.ClearLimit` | src/ext/mysql_cpp/common/op_impl.h:695-711 | to be prepared again only if no limits are left |
| `PreparedStatements.Op.SetOffset` | src/ext/mysql_cpp/common/op_impl.h:714-730 | to be prepared again only if it was prepared without limits |
| `PreparedStatements.Op.ClearOffset` | src/ext/mysql_cpp/common/op_impl.h:732-748 | to be prepared again only if no limits are left |
| `PreparedStatements.Op.AddParam` | src/ext/mysql_cpp/common/op_impl.h:578-586 | a parameter is set or replaced, and the statement remains prepared |
| `PreparedStatements.Op.ClearParams` | src/ext/mysql_cpp/common/op_impl.h:615-618 | no parameters, and the statement remains prepared |
| `PreparedRuns.Run` | src/ext/mysql_cpp/common/op_impl.h:504-546 | every script of fewer than 2^32 - 1 creations, edits, executions, clones and destructions has exactly the effects the pure functions give, whatever the server refuses and whatever ends with an error; an effect is that of direct execution exactly where the execution is not odd; if only operations that can be sent are executed, the effects are those without prepared statements, and if nothing fails, those of direct execution |
| `PreparedRuns.CachedIsUncached` | src/ext/mysql_cpp/common/op_impl.h:504-546 | if effects are those of direct execution exactly where they are not odd, operations that can be sent do what they would do if nothing were ever prepared, errors that are kept included |
| `PreparedRuns.UncachedIsPlain` | src/ext/mysql_cpp/common/op_impl.h:473-495 | without errors, nothing is left of one execution for the next one |
| `PreparedRuns.NoneOdd` | src/ext/mysql_cpp/common/op_impl.h:504-546 | without errors, no execution of an operation that can be sent is odd, in any run of such operations |
| `PreparedRuns.AloneIsUnique` | src/ext/mysql_cpp/common/op_impl.h:153-172 | the count of a shared id is one exactly if no other existing operation has the same id |
| `PreparedRuns.Thrice` | src/ext/mysql_cpp/common/op_impl.h:504-546 | the third execution of an unedited operation does run what the second prepared |
| `PreparedRuns.EmptyModify` | src/ext/mysql_cpp/common/op_impl.h:2474-2482 | a modify operation without updates does nothing twice, then runs a statement it never prepared, and then repeats the error even when it has updates and could be sent |
| `PreparedRuns.EmptyCriteria` | src/ext/mysql_cpp/common/op_impl.h:1226-1240 | an operation with empty criteria throws, does nothing, throws, does nothing, and then runs a statement it never prepared |
| `PreparedRuns.BlockedOnce` | src/ext/mysql_cpp/common/op_impl.h:214-236 | after the session could not make room for a command the next execution sends nothing, and the one after that runs |
| `PreparedRuns.ErrorStays` | src/ext/mysql_cpp/common/op_impl.h:293-326 | after an error of the server, an edited operation repeats the error, and a copy of it runs |
| `PreparedEdits.LimitsReach` | src/ext/mysql_cpp/common/op_impl.h:677-771 | the limit is the row count and the offset is the offset, in whatever order they are set; an offset alone asks for 2^64 - 1 rows, a limit alone starts at zero, neither sends no clause |
| `PreparedEdits.WishesReach` | src/ext/mysql_cpp/common/op_impl.h:500-1240 | everything that was asked for reaches the server: lists in the order given, the last value of each name |
| `PreparedEdits.ClearsReach` | src/ext/mysql_cpp/common/op_impl.h:615-1224 | what is cleared does not reach the server, whatever it was |
| `PreparedEdits.ScriptRuns` | src/ext/mysql_cpp/common/op_impl.h:214-236 | a new operation that is edited and executed runs what the edits amount to |
| `PreparedEdits.EditRestarts` | src/ext/mysql_cpp/common/op_impl.h:677-980 | an edit leads back to direct execution exactly unless it is about limits or parameters or clears what is clear |
| `PreparedEdits.UnsupportedStays` | src/ext/mysql_cpp/common/session.h:375-408 | without support for prepared statements no operation gets an id any more |
| `PreparedEdits.UnsupportedSeen` | src/ext/mysql_cpp/common/op_impl.h:293-326 | a refusal that reveals this is remembered |
| `PreparedEdits.NextMeans` | src/ext/mysql_cpp/common/session.h:375-408 | the next id is the least one to be cleaned up, or one more than the greatest in use, or one |
| `Words.SelectBits` | old.old/src.old2/ext/sha1_php.c:40-40 | z ^ (x & (y ^ z)) chooses bits of y and z by x |
| `Words.MajorityBits` | old.old/src.old2/ext/sha1_php.c:42-42 | (x & y) or'ed with (z & (x or y)) is the exclusive or of the three pairwise products |
| `Words.RotateLeftMeans` | old.old/src.old2/ext/sha1_php.c:45-47 | the upper bits become the lower ones and the others move up |
| `Sha1.MacroFIsCh` | old.old/src.old2/ext/sha1_php.c:40-40 | the optimised F is Ch of section 4.1.1 of FIPS 180-4 |
| `Sha1.MacroHIsMaj` | old.old/src.old2/ext/sha1_php.c:42-42 | the optimised H is Maj of section 4.1.1 of FIPS 180-4 |
| `Sha1.Decode` | old.old/src.old2/ext/sha1_php.c:304-315 | the 16 words are the first 16 of the message schedule |
| `Sha1.NextWord` | old.old/src.old2/ext/sha1_php.c:51-52 | word t of the 80-word schedule comes from 16 places, which afterwards hold the last 16 words of the schedule |
| `Sha1.Mix` | old.old/src.old2/ext/sha1_php.c:56-75 | one step, whose sums come in another order, yields the a and c of the step of section 6.1.2 of FIPS 180-4 |
| `Sha1.Five` | old.old/src.old2/ext/sha1_php.c:185-189 | five steps with rotating roles are five steps with shifting variables |
| `Sha1.EightySteps` | old.old/src.old2/ext/sha1_php.c:182-270 | the unrolled rounds compute the 80 steps of section 6.1.2 of FIPS 180-4 |
| `Sha1.Transform` | old.old/src.old2/ext/sha1_php.c:175-277 | the state becomes the intermediate hash value after the block |
| `Sha1.CountStep` | old.old/src.old2/ext/sha1_php.c:107-111 | the two words of the counter hold the bit count modulo 2^64 after a chunk, carry included |
| `Sha1.CountExact` | old.old/src.old2/ext/sha1_php.c:107-111 | they do so exactly for chunks shorter than 2^32 bytes |
| `Sha1.LongChunkNeverEnds` | old.old/src.old2/ext/sha1_php.c:122-123 | for every chunk that fills the buffer and does not fit, the guard holds whenever it is reached, so that the loop never ends |
| `Sha1.GuardMeansBlock` | old.old/src.old2/ext/sha1_php.c:122-123 | the 32-bit guard holds exactly while a whole block is left |
| `Sha1.WholeBlocks` | old.old/src.old2/ext/sha1_php.c:122-123 | the loop hashes all whole blocks of the chunk |
| `Sha1.HashFull` | old.old/src.old2/ext/sha1_php.c:113-127 | buffered bytes and chunk are hashed up to the last whole block of the message |
| `Sha1.CountBytesAreLength` | old.old/src.old2/ext/sha1_php.c:146-153 | the eight bytes taken from the counter are the 64-bit big-endian length |
| `Sha1Spec.LengthRead` | old.old/src.old2/ext/sha1_php.c:146-153 | the appended length, read as two big-endian words like a block, is the bit count modulo 2^64 |
| `Sha1.Encode` | old.old/src.old2/ext/sha1_php.c:284-297 | the state as bytes, most significant first |
| `Sha1Spec.DigestRead` | old.old/src.old2/ext/sha1_php.c:284-297 | the digest, read as big-endian words like a block, is the state in order |
| `BlockStream.ZeroCountIsLeast` | old.old/src.old2/ext/sha1_php.c:155-159 | the number of zero bytes in the padding is the least that section 5.1.1 of FIPS 180-4 and section 3.1 of RFC 1321 allow |
| `Sha1.Context.Init` | old.old/src.old2/ext/sha1_php.c:81-91 | the context of the empty message |
| `Sha1.Context.Update` | old.old/src.old2/ext/sha1_php.c:99-133 | the context of the message extended by the chunk: state, counter and buffer together |
| `Sha1.Context.Final` | old.old/src.old2/ext/sha1_php.c:140-169 | the digest of the message, padded as section 5.1.1 of FIPS 180-4 says |
| `Sha1.HashChunks` | old.old/src.old2/ext/sha1_php.c:319-336 | for every message and every way to cut it into chunks, the digest of FIPS 180-4 of the whole |
| `Md5.MacroFIsF` | old.old/src.old2/ext/md5_php.c:67-67 | the optimised F is that of section 3.4 of RFC 1321 |
| `Md5.MacroGIsG` | old.old/src.old2/ext/md5_php.c:68-68 | the optimised G is that of section 3.4 of RFC 1321 |
| `Md5.AssembleIsSum` | old.old/src.old2/ext/md5_php.c:95-100 | shifting and or-ing bytes together is the little-endian number |
| `Md5.Mix` | old.old/src.old2/ext/md5_php.c:75-78 | one STEP yields the new variable of the step of section 3.4 of RFC 1321 |
| `Md5.Four` | old.old/src.old2/ext/md5_php.c:129-132 | four steps with rotating roles are four steps with shifting variables |
| `Md5.SixtyFourSteps` | old.old/src.old2/ext/md5_php.c:128-198 | the unrolled rounds compute the 64 steps, and words are read before they are needed again |
| `Md5.CountStep` | old.old/src.old2/ext/md5_php.c:232-236 | the 29-bit and 32-bit halves hold the byte count modulo 2^61 after any chunk |
| `Md5.CountBytesAreLength` | old.old/src.old2/ext/md5_php.c:281-289 | the bytes appended are the bit count modulo 2^64 |
| `Md5Spec.LengthRead` | old.old/src.old2/ext/md5_php.c:281-289 | the appended length, read as two little-endian words like a block, is the bit count modulo 2^64 |
| `Md5.Context.Body` | old.old/src.old2/ext/md5_php.c:109-214 | the do-while loop over n blocks is n compressions |
| `Md5.Context.Init` | old.old/src.old2/ext/md5_php.c:216-225 | the context of the empty message |
| `Md5.Context.Update` | old.old/src.old2/ext/md5_php.c:227-260 | the context of the message extended by the chunk |
| `Md5.Context.PadOut` | old.old/src.old2/ext/md5_php.c:266-291 | one block more, or two, hash exactly what sections 3.1 and 3.2 of RFC 1321 append |
| `Md5.Context.Final` | old.old/src.old2/ext/md5_php.c:262-309 | the digest of the message |
| `Md5Spec.DigestRead` | old.old/src.old2/ext/md5_php.c:262-309 | the digest, read as little-endian words like a block, is the state in order |
| `Md5.HashChunks` | old.old/src.old2/ext/md5_php.c:314-331 | for every message and every way to cut it into chunks, the digest of RFC 1321 of the whole |
| `ResultCache.Session.PrepareForCmd` | src/ext/mysql_cpp/common/session.cc:670-678 | no result has unread data afterwards, and no row of any result is lost; it fails exactly if there is a current result whose reply ends with an error, which remains current if the error stands in place of a result set |
| `ResultCache.Session.Execute` | src/ext/mysql_cpp/common/op_impl.h:214-236 | a new command gets the wire, and every earlier result can still deliver what it could deliver; there is no result exactly if making room failed |
| `ResultCache.Session.OneReader` | src/ext/mysql_cpp/common/session.h:331-352 | at most one result has unread data on the wire, and it is the current one |
| `ResultCache.Session.RegisterResult` | src/ext/mysql_cpp/common/session.h:342-346 | the result becomes the current one, if there is none |
| `ResultCache.Session.DeregisterResult` | src/ext/mysql_cpp/common/session.h:348-352 | only the current result can be let go |
| `ResultCache.ResultImpl.constructor` | src/ext/mysql_cpp/common/result.cc:173-179 | a new result is registered and has everything still to come |
| `ResultCache.ResultImpl.RowsConserved` | src/ext/mysql_cpp/common/result.h:994-998 | the queues are equally long, sizes match, and rows handed out, cached and on the wire are the filtered rows that were sent |
| `ResultCache.ResultImpl.KeepsSession` | src/ext/mysql_cpp/common/session.h:331-352 | what is done to one result does not make another one a reader of the wire |
| `ResultCache.ResultImpl.OpenedIsNothingNew` | src/ext/mysql_cpp/common/result.cc:291-297 | storing early changes what is to come exactly for a result that was not asked for its first result set |
| `ResultCache.ResultImpl.PopRowCache` | src/ext/mysql_cpp/common/result.h:1017-1044 | the three queues lose their first entry together, and the other result sets remain complete |
| `ResultCache.ResultImpl.PushRowCache` | src/ext/mysql_cpp/common/result.cc:253-258 | the result set that is entered gets a cache, and the others remain complete |
| `ResultCache.ResultImpl.ReadNextResult` | src/ext/mysql_cpp/common/result.cc:207-251 | there is a next result set exactly if one is on the wire; an error is thrown exactly if the reply ends with one |
| `ResultCache.ResultImpl.NextResult` | src/ext/mysql_cpp/common/result.cc:197-205 | the next result set in the order sent, with all its rows, whether cached or not; an error exactly if none is left and the reply ends with one |
| `ResultCache.ResultImpl.RowEnd` | src/ext/mysql_cpp/common/result.cc:366-373 | a row that passes the filter is inserted at the iterator, which is at the end of the last list |
| `ResultCache.ResultImpl.GetRows` | src/ext/mysql_cpp/common/result.cc:313-322 | a batch from the cursor, filtered, in order; at the latest an empty batch finds the end, and an error unless it stands in place of a further result set |
| `ResultCache.ResultImpl.LoadBatch` | src/ext/mysql_cpp/common/result.cc:306-343 | the session is let go only when nothing of the reply is left |
| `ResultCache.ResultImpl.LoadCache` | src/ext/mysql_cpp/common/result.cc:291-345 | what is to come is unchanged; what was loaded is exactly a filtered batch from the wire |
| `ResultCache.ResultImpl.GetRow` | src/ext/mysql_cpp/common/result.cc:261-278 | the next undelivered row; none exactly if the cache is empty and no row of the next batch passes, and then an error exactly if one has arrived; with the default filter only at the end |
| `ResultCache.ResultImpl.Store` | src/ext/mysql_cpp/common/result.h:1162-1166 | all rows of the result set are in the cache, and none is lost |
| `ResultCache.ResultImpl.StoreAllResults` | src/ext/mysql_cpp/common/result.h:1168-1174 | the loop ends with nothing on the wire and everything still to come that was to come, and fails exactly if the reply ends with an error |
| `ResultCache.ResultImpl.Count` | src/ext/mysql_cpp/common/result.h:1176-1186 | the number of undelivered rows of the current result set, or an error exactly if there is no reply, or all was read and the error that ends it has arrived |
| `ResultCache.ResultImpl.DataIsRows` | src/ext/mysql_cpp/common/result.h:1148-1152 | has_data() holds exactly if an undelivered row or the end is still to be found |
| `ResultCache.ResultImpl.Destroy` | src/ext/mysql_cpp/common/result.cc:182-194 | a result that goes is no longer the current one, and the session stays valid |
| `ResultCache.ReadAll` | src/ext/mysql_cpp/common/result.cc:197-278 | with the default filter a client that asks for result sets and rows until there are none gets exactly what was sent |
| `ResultCache.FirstSetSkipped` | src/ext/mysql_cpp/common/result.cc:291-297 | the first result set is lost to next_result() if a command came before it |
| `ResultCache.ErrorPassedOn` | src/ext/mysql_cpp/common/session.cc:670-678 | a command after one whose reply ends with an error gets no result |
| `ResultCache.LateErrorStays` | src/ext/mysql_cpp/common/session.cc:670-678 | if the error stands in place of a further result set, any number of later commands fails, until the result is destroyed |
| `ResultCache.RowOverlooked` | src/ext/mysql_cpp/common/result.cc:261-278 | a concrete row that passes the filter and is not found |
| `SessionPool.Pool.Exclusive` | src/ext/mysql_cpp/common/session.h:257-266 | no session is held by two clients at once |
| `SessionPool.Pool.Add` | src/ext/mysql_cpp/common/session.h:233-236 | an end-point is avoided for 60 seconds from now |
| `SessionPool.Pool.IsBlockListed` | src/ext/mysql_cpp/common/session.h:238-251 | true exactly before the deadline; an entry whose time is up goes |
| `SessionPool.AvoidedFor` | src/ext/mysql_cpp/common/session.h:233-251 | an end-point is avoided for less than sixty seconds |
| `SessionPool.Pool.TimeToLiveCleanup` | src/ext/mysql_cpp/common/session.cc:1033-1053 | exactly the idle sessions whose time is up are dropped |
| `SessionPool.Pool.TrySession` | src/ext/mysql_cpp/common/session.cc:872-897 | a session that fails leaves the pool and its end-point is listed; a good one is handed out |
| `SessionPool.Pool.GetPooledSession` | src/ext/mysql_cpp/common/session.cc:900-948 | the random choice ends; none exactly if every candidate failed, and exactly the failed ones are gone and listed |
| `SessionPool.Pool.Connect` | src/ext/mysql_cpp/common/session.cc:984-1001 | a new session is on an end-point that is not listed, if that is asked for |
| `SessionPool.Pool.TwoRounds` | src/ext/mysql_cpp/common/session.cc:971-1029 | listed end-points are used only after every idle session on others has failed |
| `SessionPool.Pool.Serve` | src/ext/mysql_cpp/common/session.cc:965-1029 | null exactly if the pool is full and all in use, and then nothing has changed; never more than the limit |
| `SessionPool.Pool.GetSession` | src/ext/mysql_cpp/common/session.cc:951-1030 | the session returned was idle or is new, sessions in use stay, an error leaves no pointer behind |
| `SessionPool.Pool.ReleaseSession` | src/ext/mysql_cpp/common/session.cc:832-868 | the client has no session any more, unless the pool is closed; the session stays, with a new deadline and no handler |
| `SessionPool.IdleFor` | src/ext/mysql_cpp/common/session.cc:832-868 | a session that was given back is dropped exactly if it was idle for longer than the time to live |
| `SessionPool.Pool.Close` | src/ext/mysql_cpp/common/session.cc:806-829 | the pool is empty and closed |
| `SessionPool.PooledSession.DoCont` | src/ext/mysql_cpp/common/session.cc:734-756 | a client gets a session that no other client holds, or learns exactly that all are held |
| `SessionPool.PooledSession.Release` | src/ext/mysql_cpp/common/session.cc:713-725 | the invariant of the pool is kept and the session is given back |
| `WorkerPool.SpawnThreads` | old.old/src.old2/tgvisd/Main/Main.cpp:108-150 | the loops push every index once, on its own stack, lowest on top |
| `WorkerPool.InitInv` | old.old/src.old2/tgvisd/Main/Main.cpp:108-150 | the invariant holds when dispatching begins |
| `WorkerPool.WorkerStepOk` | old.old/src.old2/tgvisd/Main/Worker.cpp:115-308 | every step of a worker thread keeps what holds of it |
| `WorkerPool.DispatchStepOk` | old.old/src.old2/tgvisd/Main/Main.cpp:367-373 | every step of handing over, spawning, joining and waiting keeps it |
| `WorkerPool.NextKeeps` | old.old/src.old2/tgvisd/Main/Worker.cpp:80-308 | every step of any thread keeps the invariant of the whole pool |
| `WorkerPool.RunKeeps` | old.old/src.old2/tgvisd/Main/Worker.cpp:80-308 | so does every interleaving, and every update that arrived is at exactly one place |
| `WorkerPool.ExactlyOnce` | old.old/src.old2/tgvisd/Main/Worker.cpp:216-225 | after any run the updates handed to a worker are those it processed, once and in order, and the pending one |
| `WorkerPool.OnStackWhileFree` | old.old/src.old2/tgvisd/Main/Main.cpp:246-307 | an index is on its own stack, once, exactly while its worker is free |
| `WorkerPool.NoneForgotten` | old.old/src.old2/tgvisd/Main/Main.cpp:367-373 | once the dispatcher is done with a worker, a pending update means that the worker is online |
| `WorkerPool.PrimariesStay` | old.old/src.old2/tgvisd/Main/Worker.cpp:237-264 | primary workers are always online |
| `WorkerTimeouts.LeavesAfterTwenty` | old.old/src.old2/tgvisd/Main/Worker.cpp:237-264 | after any run an extra worker leaves exactly if it has waited in vain twenty times since its last update or since its thread began |
| `WorkerTimeouts.PrimariesOccupied` | old.old/src.old2/tgvisd/Main/Main.cpp:367-373 | an update goes to an extra worker only if all primary ones are occupied |
| `WorkerTimeouts.DroppedWhenOccupied` | old.old/src.old2/tgvisd/Main/Main.cpp:367-373 | an update is dropped only if all extra workers are occupied as well |
| `WorkerTimeouts.HandedToTop` | old.old/src.old2/tgvisd/Main/Main.cpp:246-307 | otherwise it goes to the free worker that was given back last |
| `WorkerPool.AssertionsHold` | old.old/src.old2/tgvisd/Main/Worker.hpp:35-46 | the assertions in sendUpdate, spawn, doSpawn, runWorker, the event loops and the put functions hold in every reachable state |
| `WorkerPool.Progress` | old.old/src.old2/tgvisd/Main/Worker.cpp:115-308 | from every reachable state a pending update can be processed within 87 steps |
| `WorkerPool.StuckForGood` | old.old/src.old2/tgvisd/Main/Worker.cpp:187-194 | a dispatcher that waits for a thread that has timed out already waits forever |
| `WorkerPool.DispatchCompletes` | old.old/src.old2/tgvisd/Main/Worker.cpp:80-194 | in every other state the dispatcher can be done within a bounded number of steps |
| `WorkerPool.CanGetStuck` | old.old/src.old2/tgvisd/Main/Worker.cpp:187-194 | a run from the start that gets the dispatcher stuck |
| `WorkerFairness.EveryStepHelps` | old.old/src.old2/tgvisd/Main/Worker.cpp:80-308 | no step of anyone sets a pending update back |
| `WorkerFairness.EventuallyProcessed` | old.old/src.old2/tgvisd/Main/Worker.cpp:80-308 | in every endless run in which neither the dispatcher nor the worker is passed over for ever, a pending update is processed |
| `WorkerFairness.EventuallyIdle` | old.old/src.old2/tgvisd/Main/Worker.cpp:80-194 | in every endless run that is fair to the dispatcher and to the worker it deals with, the dispatcher is done with that worker or gets stuck |
| `WorkerFairness.EventuallyDispatched` | old.old/src.old2/tgvisd/Main/Main.cpp:367-373 | in every fair run the dispatcher is done with every update it has taken, or gets stuck |
| `WorkerFairness.WeakIsNotEnough` | old.old/src.old2/tgvisd/Main/Worker.cpp:237-264 | a run in which nobody is passed over for ever, but the dispatcher never gets the mutex of a primary worker that keeps timing out |
| `ShellQuote.EscapeShellArg` | old.old/src.old/TeaBot/helpers.cpp:14-73 | the buffer holds the quoted argument and an end, the length is reported, and what is behind stays |
| `ShellQuote.OneWord` | old.old/src.old/TeaBot/helpers.cpp:14-73 | read by section 2.2 of the POSIX Shell Command Language the output is exactly one word equal to the input |
| `ShellQuote.ReadQuoted` | old.old/src.old/TeaBot/helpers.cpp:31-65 | whatever follows, the quoted string contributes exactly the input to the word |
| `ShellQuote.ArgumentsRoundTrip` | old.old/src.old/TeaBot/helpers.cpp:14-73 | a command line of quoted arguments gives all of them back in order |
| `ShellQuote.QuotedLength` | old.old/src.old/TeaBot/helpers.cpp:34-70 | the length is that of the input plus three for each quote plus two |
| `ShellQuote.WorstCase` | old.old/src.old/TeaBot/helpers.cpp:21-26 | the allocation suffices exactly if some character is not a quote |
| `Ini.RStrip` | old.old/src.old2/ext/inih/ini.c:48-54 | in place, only within the string |
| `Ini.LSkip` | old.old/src.old2/ext/inih/ini.c:57-62 | the position of the trimmed string |
| `Ini.FindCharsOrComment` | old.old/src.old2/ext/inih/ini.c:67-82 | the first position of a character or of a comment after space, or the end |
| `Ini.StrNCpy0` | old.old/src.old2/ext/inih/ini.c:86-94 | as much as fits, with an end |
| `Ini.CopyLine` | old.old/src.old2/ext/inih/ini.c:275-284 | up to the end of the line or of the buffer |
| `Ini.StringContext.ReaderString` | old.old/src.old2/ext/inih/ini.c:265-288 | the next line of what is left, which is then what is behind it |
| `Ini.Locate` | old.old/src.old2/ext/inih/ini.c:159-167 | the start of the trimmed line, and that it lies behind the beginning exactly if the line is indented |
| `Ini.SetSection` | old.old/src.old2/ext/inih/ini.c:180-196 | the section buffer after a section line, or that the line is malformed |
| `Ini.ReadPair` | old.old/src.old2/ext/inih/ini.c:197-227 | name, value and continuation buffer after a pair, or that the line is malformed |
| `Ini.ReadLine` | old.old/src.old2/ext/inih/ini.c:157-228 | working in place has the outcome of the pure function of the line |
| `Ini.ParseStream` | old.old/src.old2/ext/inih/ini.c:97-241 | handler calls and result are those of the fold over the lines of the input |
| `Ini.ParseString` | old.old/src.old2/ext/inih/ini.c:291-298 | the result is the number of the first line that is malformed or rejected, or zero |
| `IniSpec.LinesJoin` | old.old/src.old2/ext/inih/ini.c:265-288 | the lines concatenate to the whole input, long ones in pieces |
| `IniSpec.FirstBadLine` | old.old/src.old2/ext/inih/ini.c:174-240 | keeping the first error through the fold is finding the first bad line |
| `IniSpec.ReportsAreTrimmed` | old.old/src.old2/ext/inih/ini.c:167-213 | names and values have no space around them, and what is carried fits into 50 characters |
| `IniRoundTrip.TextParsed` | old.old/src.old2/ext/inih/ini.c:97-241 | sections, pairs with either separator, space and inline comments, continuations, comments, blank lines and malformed lines that are written out are reported as they mean, in order, whatever precedes them; the error is the number of the first malformed line |
| `IniRoundTrip.ParseText` | old.old/src.old2/ext/inih/ini.c:291-298 | parsing such a text calls any handler with exactly its meaning, and if nothing is rejected the result is the number of the first malformed line |
| `IniRoundTrip.ItemParsed` | old.old/src.old2/ext/inih/ini.c:157-228 | what becomes of one line of each kind, continuation included, whatever is carried |
| `IniRoundTrip.IndentedAlike` | old.old/src.old2/ext/inih/ini.c:159-179 | where nothing can be continued, space in front of a line changes nothing |
| `IniRoundTrip.LongLine` | old.old/src.old2/ext/inih/ini.c:265-288 | a line of more than 199 characters comes in pieces of 199 |
| `IniRoundTrip.MarkIgnored` | old.old/src.old2/ext/inih/ini.c:159-166 | a byte order mark in front of the text changes nothing |

## Left out

- PreparedRuns.Run: scripts of at least 2^32 - 1 events are left out, because ids could run out; `NextWraps` says what the allocator does then.
- PreparedStatements.Op.DoSendCommand: find, remove, modify, select, update and delete are one operation with a kind; clauses an operation of the source does not have are empty.
- SessionPool.Pool.Serve: time stands still during one call of the session pool, and its mutexes make calls atomic; waiting for a session with a timeout is not modelled.
- ResultCache.ResultImpl.GetRow: needs a reply, as the source does; a result whose error was ignored has none.
- Iterators, template conversions, text and binary formats, flattening and allocation failure of the JSON library.
- Doubles are exact rationals, infinities or NaN: the two zeros are one value, and only conversion of integers to double rounds.
- Sizes of JSON arrays are those of `size_t`: the source value of a diff must be representable (`Representable`).
- In `patch`, a failed JSON assertion is an error of its own; references into the working copy are paths into a value.
- In `replace` and `test`, the pointer is resolved before the value is looked at; the source leaves this order to the compiler for some errors.
- PreparedStatements.Op.Drive: while the reply to a refused command is on its way, nothing else is done in the session; `is_completed()` is not modelled.
- SQL statements, insertions, schema and transaction commands of the connector are never prepared and are not modelled; nor is `skip_error`.
- The server is a map from ids to statements. It may refuse any command that carries an id, lose the statement the refused command was to prepare, or turn out not to support prepared statements; it does not lose others. Any query it runs may end with an error.
- That the session cannot make room for a command is a reaction (`Blocked`) of operations; `ResultCache.Session.PrepareForCmd` says when it happens.
- The cursor of a result is an abstract source of rows; columns, codecs and warnings are not modelled. A result set is described by its number.
- Two results are never created from one reply, and a result is created when none is registered, as the source asserts.
- The bare `throw;` in `try_session` is modelled as the jump into the catch block that the comment there describes.
- `set_pool_opts` and changes of the limit while the pool is in use.
- `Worker::close`, destructors and the memory model: accesses to flags outside of the mutex are atomic, and no worker is closed.
- What a module does with an update is one step; the name of a thread is not modelled.
- `make_digest` and `make_digest_ex` print a digest; file reading is a list of chunks.
- The constants of MD5 and SHA-1 are given; the unrolled lines are grouped in fives and fours with their step numbers.
- Unaligned word access in MD5: words are always assembled from bytes.
- The WIN32 branch of `escapeshellarg`.
- INI options other than the defaults, files, and handlers that are not functions of the calls they got.
- Telegram, database, console and network code.
