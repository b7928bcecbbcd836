# jQuery's hard core, permutations and money transfers, in Dafny

The web application ships `jquery-1.8.3.js`; its selector engine, callback lists and event machinery are
the most intricate code of the repository. This project models that machinery, the permutation generator of
the account tests and the money transfer service, and proves what they promise. There is one module per part:

| module | part of the program |
|---|---|
| `Dom` | the document as a finite tree; a node is its path, and the node pointers are functions on paths |
| `Combinators` | compiled matchers: what they should accept, and what they do with the one stamp/verdict slot of each node |
| `Stamps` | what a call writes, what it depends on, and that its acceptance is right whatever is stamped |
| `Sizzles` | the closures of `addCombinator` and `elementMatcher`, writing on nodes |
| `Questions` | which nodes a matcher puts to which test, which stamps cannot mislead it, and the agreement of the stamped walk with the plain one |
| `Filtering` | a compiled matcher as the filter of a list, all elements under one candidate number |
| `Selectors` | what token lists without positional filters compile to, and mean in section 8 of Selectors Level 3 |
| `Compiling` | `matcherFromTokens` and `compile` on all token lists, positional filters included |
| `SetMatching` | positional pseudos, `condense` and `setMatcher`, in place on two arrays |
| `SuperMatching` | `matcherFromGroupMatchers`: a whole search on a seed |
| `DocumentOrder` | the parent-chain comparator, `siblingCheck` and `uniqueSort` |
| `NthChild` | `an+b` and the other child filters, section 6.6.5 of Selectors Level 3 |
| `Callbacks`, `CallbackLists` | `jQuery.Callbacks`: the machine, and the object with its re-entrant loops |
| `Refiring` | what one fire and the firings begun by `add` call; the options and `empty`, `disable`, `lock` |
| `Deferreds`, `Notifying`, `Whens` | `jQuery.Deferred`, its progress list, and `jQuery.when` |
| `Namespaces`, `Handlers` | the namespace pattern; the handler list of `event.add`, `remove` and `dispatch` |
| `DataIds` | ids, cache and free list behind `data`, `removeData` and `cleanData` |
| `AjaxConvert` | the conversion loop that inserts into the list it walks |
| `Permutations` | the permutation generator |
| `Transfers` | `transactInAccounts` with the setters of its entities |

The usual shape is a method with the source's loop or state change, proved equal to a specification function or
predicate, and theorems about that specification which do not mention how it is computed. User code that the
original calls (callbacks, simple tests, converters, selector tests of delegated handlers) is an arbitrary
function, or a finite script of operations on the object that calls it. Set matchers and searches run their compiled
filters, stamps and all.

## What the proofs found

Limits of what one might expect of the code, each with the exact condition under which the property holds; for filters
with nested stamped walks in 1 the condition is sufficient.

1. A candidate with a number of its own is judged right whatever is stamped (`Questions.MatchReady`). The filters of a set
   matcher try a whole list under one number. Whatever the filter, it keeps nothing wrong and is right up to the first
   element it keeps (`Filtering.AnswersUpheld`, `Filtering.FirstAnswer`), so `:first` is never harmed. It is right about
   a list in which no two elements clash, that is, in which no combinator asks for both of two elements a node that
   fails itself and from which its walk would go on to succeed (`Filtering.AnswerRight`, `SetMatching.CondensedRight`). A
   filter that comes to one stamped walk is right about a list, and every position picks rightly from it, only then
   (`Filtering.AnswersExactly`, `SetMatching.CondensedExactly`, `SetMatching.PickedExactly`). When `x` and `y` are the
   children of `b`, `b` is the only child of `a`, and only `a` passes `A`, `A *:eq(1)` takes nothing from the list of both
   (`SetMatching.MissedSibling`, `SetMatching.MissedSecond`). This concerns lists that are given, as by `filter`; a
   search without a seed finds the elements before the position by another search and does not run the pre filter
   (src/main/webapp/jquery-1.8.3.js:4849).
2. A set matcher with a post filter and no pre filter also applies the post filter to what earlier set matchers had
   matched. Post filters that test elements leave earlier results alone exactly when these pass too
   (`SetMatching.OutcomeAddsExactly`), and `:first` as a post filter hardly ever does (`SetMatching.OutcomeFirstExactly`).
3. The popping loop of a search with set matchers takes each hole of the seed for an element it had pushed. The search is
   right exactly on seeds whose holes all stand in front (`SuperMatching.SearchAppendsExactly`).
4. On nodes of different trees the comparator may call each of two nodes the greater one
   (`DocumentOrder.AntisymmetricExactly`).
5. Names are put into the namespace pattern as they are. That of the name `w+` finds exactly the words that repeat the
   last character of `w`, and not `w+` (`Namespaces.PlusExactly`, `Namespaces.PlusMisses`). For names of characters that
   mean themselves the test is the sub-multiset test, because the code sorts both lists (`Namespaces.NamespaceTest`).
6. The selectors of delegated handlers are looked up in an object literal, so `constructor` and the like match everywhere.
   The queue is right exactly if no selector that does not match has such a name (`Handlers.MatchingExactly`).
7. Permutations repeat exactly when a character does (`Permutations.DistinctExactly`).
8. An account that transfers to itself gains the amount whenever the first pass moves money, even if the call is then
   refused: the guard is reached only by a pass that does not move money (`Transfers.SelfTransfer`).
9. A refused transfer can leave a changed table when the accounts handed in say another currency than the table
   (`Transfers.RefusedUnchangedExactly`).

10. `empty` makes a disabled list a list again, and nothing else does; it can then be added to, and fired if it had not been
    before (`Refiring.RevivedExactly`, `Refiring.RevivedFires`; src/main/webapp/jquery-1.8.3.js:1051-1059). Without
    `empty` a disabled list stays one (`Refiring.DisabledForGood`).
11. What stands behind a positional filter in its compound is compiled as a selector of its own, with the context check of
    its own (src/main/webapp/jquery-1.8.3.js:4966). What a selector selects passes it if the selector does not begin with
    `+` or `~` (`Compiling.SelectedBelow`); otherwise tests behind the filter also require that the element is below the
    context (`Compiling.PositionMeaning`).

## Model

| member | source | states |
|---|---|---|
| Sizzles.Sizzle.Match | src/main/webapp/jquery-1.8.3.js:4798-4810 | Calling a compiled matcher answers and stamps exactly as specified from any slots; and when the stamps are ready it accepts a node exactly when the matcher defined without any stamps does |
| Sizzles.Sizzle.Walk | src/main/webapp/jquery-1.8.3.js:4746-4796 | The closure of a combinator, first-only or not, stamped or plain, is the specified walk, whose properties are those of `Stamps` |
| Sizzles.Sizzle.StampedWalk | src/main/webapp/jquery-1.8.3.js:4762-4785 | The cached loop with its three branches is the specified stamped walk: same answer, same nodes stamped with the same verdicts |
| Sizzles.Sizzle.PlainWalk | src/main/webapp/jquery-1.8.3.js:4751-4759 | The loop to the closest eligible node, and the XML branch, are the specified walk |
| Sizzles.Sizzle.Visit | src/main/webapp/jquery-1.8.3.js:4777-4782 | Stamping before asking and writing the verdict after it has the effect of writing both after it, although the inner matcher stamps other nodes in between |
| Stamps.MatchWrote | src/main/webapp/jquery-1.8.3.js:4777-4782 | A call stamps only nodes before the candidate, only with its own names and the present candidate number |
| Stamps.MatchSame | src/main/webapp/jquery-1.8.3.js:4766-4772 | Stamps with names a matcher does not use, and other numberings of the candidates, make no difference to it |
| Stamps.MarkFirst | src/main/webapp/jquery-1.8.3.js:4777-4782 | Nothing the inner matcher asks looks at the node that is being asked about |
| Stamps.MatchUpheld | src/main/webapp/jquery-1.8.3.js:4746-4810 | Whatever was tried before and under whatever number, what a matcher accepts it accepts rightly |
| Questions.MatchClean | src/main/webapp/jquery-1.8.3.js:4746-4810 | Sound stamps that are settled on just the nodes a matcher asks, at every level of nesting, do not mislead it; it stamps nodes it asks only, and settled ones if it fails |
| Questions.WalkClean | src/main/webapp/jquery-1.8.3.js:4762-4785 | The cached walk over a slot shared by all combinators succeeds exactly when the plain walk does, when the stamps are sound and those on what it asks are settled |
| Questions.MatchReady | src/main/webapp/jquery-1.8.3.js:4746-4810 | For a candidate with a number of its own, or from any ready stamps, a matcher accepts exactly what it should; positive verdicts stay reliable afterwards, negative ones if it failed |
| Filtering.AnswersUpheld | src/main/webapp/jquery-1.8.3.js:4819-4828 | A list filter, nested stamped walks included, keeps no element it should not keep |
| Filtering.FirstAnswer | src/main/webapp/jquery-1.8.3.js:4819-4828 | A list filter is right up to and including the first element it keeps |
| Filtering.TrailAsked | src/main/webapp/jquery-1.8.3.js:4762-4785 | With one stamped walk, the nodes stamped for a list are exactly those the plain walks ask, each with its true verdict |
| Filtering.AnswerRight | src/main/webapp/jquery-1.8.3.js:4819-4828 | Every list filter, nested stamped walks included, is right about an element when no two elements up to it clash |
| Filtering.AnswerExactly | src/main/webapp/jquery-1.8.3.js:4768-4784 | With one stamped walk, an element is missed exactly when it clashes with one before it |
| Filtering.AnswersExactly | src/main/webapp/jquery-1.8.3.js:4849-4852 | A filter with one stamped walk is right about a whole list exactly when no two of its elements clash |
| Filtering.SiblingsClash | src/main/webapp/jquery-1.8.3.js:4768-4784 | In a concrete document two siblings that match the same selector clash |
| Compiling.Compiler.MatcherFromTokens | src/main/webapp/jquery-1.8.3.js:4926-4976 | The compile loop, its return upon a positional filter and the recursive calls build exactly the nested matcher or set matcher of the definition, with the same names |
| Compiling.Compiler.CompileGroup | src/main/webapp/jquery-1.8.3.js:5086-5094 | The selectors of a group are compiled last to first with fresh names, and sorted into element matchers and set matchers |
| Compiling.CompiledFit | src/main/webapp/jquery-1.8.3.js:4954-4970 | Every compiled matcher uses a name once, and every compiled set matcher shares none between its filters |
| Compiling.GroupFit | src/main/webapp/jquery-1.8.3.js:5086-5097 | All matchers of a compiled group, of elements and of sets, share no name, so every compiled group meets what a search requires |
| Compiling.NoPosition | src/main/webapp/jquery-1.8.3.js:4947-4975 | Without a positional filter the result is the element matcher of `Selectors` |
| Compiling.PositionMeaning | src/main/webapp/jquery-1.8.3.js:4954-4970 | A positional filter with tests behind it and perhaps more behind a combinator: where no elements clash its set matcher moves exactly those that the selector before it selects, that stand at the position among them and that pass every test; the rest is left to a finder made of all of it |
| Compiling.PositionParts | src/main/webapp/jquery-1.8.3.js:4956-4970 | What stands before the filter, behind it up to the next combinator, and from there on is each compiled whole, one after the other |
| Compiling.TestsMeaning | src/main/webapp/jquery-1.8.3.js:4966-4966 | The tests behind a positional filter accept exactly the elements below the context that pass every one of them |
| Compiling.SelectedBelow | src/main/webapp/jquery-1.8.3.js:4930-4945 | What a selector that does not begin with `+` or `~` selects is below the context, so that the tests alone decide |
| Selectors.CompiledNames | src/main/webapp/jquery-1.8.3.js:4749-4749 | All names within a compiled matcher are distinct and lie in the range its compilation took, for every token list |
| Selectors.ParseSpells | src/main/webapp/jquery-1.8.3.js:4926-4976 | Every token list reads as a selector and is the spelling of it |
| Selectors.ReachesFound | src/main/webapp/jquery-1.8.3.js:4746-4796 | The pointer walk of each of the four combinators succeeds exactly when a node in the named relation (child, descendant, directly or somewhere after) satisfies the target |
| Selectors.CompiledMeaning | src/main/webapp/jquery-1.8.3.js:4926-4976 | A compiled matcher accepts a node exactly when a chain of nodes ends in it that satisfies every compound and every combinator and, when the context is checked, is tied to the context |
| SetMatching.MatchIndexes | src/main/webapp/jquery-1.8.3.js:4518-4556 | Each index function lists exactly the indices in range that its position names, negative arguments counted from the end |
| SetMatching.PicksLaws | src/main/webapp/jquery-1.8.3.js:4518-4556 | Negative arguments pick what their opposites pick of the list turned round; `:lt`, `:eq` and `:gt` share out every list; `:even` and `:odd` alternate |
| SetMatching.MatchPosition | src/main/webapp/jquery-1.8.3.js:3965-3981 | Picked elements move to the same index of the other array, everything else stays |
| SetMatching.Condense | src/main/webapp/jquery-1.8.3.js:4812-4831 | Condensing with a real matcher, from any slots without its names, gives the list and index map of the specified answers, and stamps with its names only |
| SetMatching.CondensedRight | src/main/webapp/jquery-1.8.3.js:4812-4831 | With any filter the condensed list is the right one when no two elements clash |
| SetMatching.CondensedExactly | src/main/webapp/jquery-1.8.3.js:4812-4831 | With a filter of one stamped walk exactly then |
| SetMatching.CondensedAt | src/main/webapp/jquery-1.8.3.js:4819-4828 | A passing element is found in the condensed list at the number of passing ones before it |
| SetMatching.IndexesBack | src/main/webapp/jquery-1.8.3.js:4822-4825 | The index map takes every place of the condensed list back to the element's own index |
| SetMatching.Unmatch | src/main/webapp/jquery-1.8.3.js:4870-4882 | Exactly the matches that fail the post filter go back to the input array, at their own index |
| SetMatching.MoveMatched | src/main/webapp/jquery-1.8.3.js:4899-4907 | Each match of the condensed arrays moves from seed to results at its index in the seed |
| SetMatching.MatchDirect | src/main/webapp/jquery-1.8.3.js:4854-4882 | Without a pre filter the caller's arrays are used; what remains in the results is what is picked or preexisting and passes the post filter |
| SetMatching.MatchFiltered | src/main/webapp/jquery-1.8.3.js:4849-4908 | With a pre filter exactly the elements that pass it, are picked in the condensed list and pass the post filter are moved, at the same index |
| SetMatching.SetMatch | src/main/webapp/jquery-1.8.3.js:4833-4924 | After any set matcher run with its compiled filters, nested post filters included, each index of the seed is either untouched or moved to the same index of the results, as the outcome says |
| SetMatching.MovedExactly | src/main/webapp/jquery-1.8.3.js:4840-4908 | With any filters, when no elements clash, moved is exactly what passes the pre filter, is at the position among those that do, and passes the post filter |
| SetMatching.PickedExactly | src/main/webapp/jquery-1.8.3.js:4840-4908 | With a pre filter of one stamped walk, all positions pick rightly exactly when no two elements clash |
| SetMatching.MovedRightly | src/main/webapp/jquery-1.8.3.js:4840-4908 | Whatever clashes, nothing is moved that does not pass both filters |
| SetMatching.FirstIsFirst | src/main/webapp/jquery-1.8.3.js:4518-4520 | `:first` takes the first element that rightly passes what stands before it, and no other, for every pre filter and despite its stamps |
| SetMatching.OutcomeAddsExactly | src/main/webapp/jquery-1.8.3.js:4854-4882 | A set matcher adds what it moves and leaves earlier results alone exactly if it has a pre filter, or no post filter, or those results all pass the post filter |
| SetMatching.OutcomeFirstExactly | src/main/webapp/jquery-1.8.3.js:4870-4882 | With `:first` as the post filter exactly if there are no earlier results, or there is one and nothing is picked |
| SetMatching.MissedSibling | src/main/webapp/jquery-1.8.3.js:4812-4831 | The condense loop on two siblings that both match keeps the first only |
| SetMatching.MissedSecond | src/main/webapp/jquery-1.8.3.js:4833-4924 | The set matcher of `A *:eq(1)` moves neither of them, though the second is at the position |
| SuperMatching.MatchElement | src/main/webapp/jquery-1.8.3.js:5001-5007 | The loop over element matchers answers whether some matcher accepts the candidate; stamps of one matcher never mislead another |
| SuperMatching.SuperMatcher.StartRun | src/main/webapp/jquery-1.8.3.js:4992-4997 | A new run number makes every stamp of earlier runs harmless |
| SuperMatching.SuperMatcher.Candidate | src/main/webapp/jquery-1.8.3.js:5000-5012 | One candidate is matched correctly and the next candidate number is fresh again |
| SuperMatching.SuperMatcher.Track | src/main/webapp/jquery-1.8.3.js:5014-5026 | Unmatched elements keep their index, and the count stays in step |
| SuperMatching.SuperMatcher.ElementPhase | src/main/webapp/jquery-1.8.3.js:4999-5029 | After the loop the accepted elements are appended in seed order and the others are left at their indices |
| SuperMatching.SuperMatcher.SetPhase | src/main/webapp/jquery-1.8.3.js:5030-5033 | All set matchers in turn, none misled by the stamps of another, share out the remaining elements between the two arrays |
| SuperMatching.SuperMatcher.PutBack | src/main/webapp/jquery-1.8.3.js:5036-5043 | The backwards loop pops a result into every index that is in neither array |
| SuperMatching.SuperMatcher.AddMatched | src/main/webapp/jquery-1.8.3.js:5045-5050 | What the array holds is appended in index order |
| SuperMatching.SuperMatcher.Search | src/main/webapp/jquery-1.8.3.js:4981-5067 | A search on any seed from any stale stamps: its results are those of the specification, and what no matcher hits is returned |
| SuperMatching.SearchAppends | src/main/webapp/jquery-1.8.3.js:4978-5067 | The search appends exactly what some element or set matcher hits (see `SuperMatching.HitsExactly`), in seed order, behind undisturbed earlier results, unless set matchers meet a hole behind an element |
| SuperMatching.HitsExactly | src/main/webapp/jquery-1.8.3.js:5000-5033 | An element is hit exactly if an element matcher accepts it, or some set matcher, the later ones included, moves it out of what the matchers before have left |
| SuperMatching.SetMatchedTurns | src/main/webapp/jquery-1.8.3.js:5030-5033 | The set matchers take their turns on the same two arrays, each on what those before it have left |
| SuperMatching.SelectInOrder | src/main/webapp/jquery-1.8.3.js:5045-5057 | The results of a search are exactly the hit elements of the seed, in the order of the seed |
| SuperMatching.SearchAppendsExactly | src/main/webapp/jquery-1.8.3.js:4978-5067 | It does so for all set matchers and earlier results exactly on the seeds whose holes lead |
| SuperMatching.HolesLeadRestores | src/main/webapp/jquery-1.8.3.js:5036-5050 | Popping, condensing and pushing puts element matches and set matches back into seed order, for any set matchers that keep the partition |
| SuperMatching.HoleBehindBreaks | src/main/webapp/jquery-1.8.3.js:5036-5050 | For every seed with a hole behind an element there is a search whose earlier result is displaced |
| SuperMatching.ReintegrationExactly | src/main/webapp/jquery-1.8.3.js:5036-5050 | Reintegration is right for all searches on a seed exactly when the holes of the seed lead |
| Compiling.GroupSets | src/main/webapp/jquery-1.8.3.js:5086-5094 | The set matchers of a compiled group are those of exactly its selectors with positional filters, the last selector first |
| Compiling.GroupMeaning | src/main/webapp/jquery-1.8.3.js:5001-5007 | The element matchers of a compiled group accept exactly what one of its selectors without positional filters selects |
| Compiling.SearchMeaning | src/main/webapp/jquery-1.8.3.js:4978-5073 | A search with a compiled group without positional filters hits an element exactly when a selector of the group selects it |
| DocumentOrder.SiblingCheck | src/main/webapp/jquery-1.8.3.js:4560-4576 | Whether the second node is a later sibling of the first |
| DocumentOrder.Sorter.SortOrder | src/main/webapp/jquery-1.8.3.js:4590-4648 | The comparator computes the order of paths, and flags duplicates exactly when asked about one node twice |
| DocumentOrder.PreorderClimbs | src/main/webapp/jquery-1.8.3.js:4590-4648 | The preorder list of a tree climbs strictly in the order of paths |
| DocumentOrder.PreorderLists | src/main/webapp/jquery-1.8.3.js:4590-4648 | The preorder list holds exactly the nodes of the tree |
| DocumentOrder.CompareIsPreorder | src/main/webapp/jquery-1.8.3.js:4590-4648 | On one tree the comparator compares preorder numbers: it is antisymmetric, transitive and total |
| DocumentOrder.AntisymmetricExactly | src/main/webapp/jquery-1.8.3.js:4608-4618 | Over several trees it is antisymmetric exactly for nodes of one tree and for a root against an inner node |
| DocumentOrder.RemoveDuplicates | src/main/webapp/jquery-1.8.3.js:4665-4674 | Collecting the repeats and splicing from the back leaves the list without repeats |
| DocumentOrder.UniqueSort | src/main/webapp/jquery-1.8.3.js:4656-4677 | On nodes of one tree the result is strictly increasing in document order and has the same nodes |
| NthChild.WordsNormalise | src/main/webapp/jquery-1.8.3.js:4189-4192 | `even` and `odd` mean the even and the odd indices |
| NthChild.FormulaNormalise | src/main/webapp/jquery-1.8.3.js:4191-4192 | The numbers made of `xn+y`, with any signs and with digits or parts missing, describe the indices for which the equation holds with some n ≥ 0 |
| NthChild.UsualFormulas | src/main/webapp/jquery-1.8.3.js:4191-4192 | A number alone is one index, `n` all, `n+y` those from y on, `-n+y` those up to y |
| NthChild.DividesUpExactly | src/main/webapp/jquery-1.8.3.js:4316-4316 | The remainder test with JavaScript's signs and the sign of the quotient says exactly that the number is a non-negative multiple |
| NthChild.NthChild | src/main/webapp/jquery-1.8.3.js:4293-4318 | True exactly when the 1-based index among element siblings is a·n+b for some n ≥ 0, for all signed a and b, zero included |
| NthChild.EdgeChild | src/main/webapp/jquery-1.8.3.js:4320-4348 | First, last and only child, fall-through included, in terms of the same index |
| Callbacks.StepInv | src/main/webapp/jquery-1.8.3.js:966-1087 | Every operation and loop step, in any phase, keeps the firing loop's place in the list, but for `empty` while firing |
| Callbacks.NoneSkippedNoneRepeated | src/main/webapp/jquery-1.8.3.js:966-991 | In every run, whatever is added or removed meanwhile, a firing that ends has called every surviving occurrence from its starting point on, once, in order |
| Callbacks.CallsInBounds | src/main/webapp/jquery-1.8.3.js:1014-1039 | While firing, `firingLength` is the length of the list, and the next entry exists and has not been called |
| Callbacks.RemoveTakesAll | src/main/webapp/jquery-1.8.3.js:1026-1045 | `remove` takes out every occurrence and keeps the order of the others |
| Callbacks.RemoveKeepsPlace | src/main/webapp/jquery-1.8.3.js:1032-1040 | After a removal the loop goes on behind what is left of the entries that had their turn |
| Callbacks.FiresInOrder | src/main/webapp/jquery-1.8.3.js:979-984 | Nested fires are begun first in first out, and none is left waiting when the list is idle |
| Callbacks.EachOnceInOrder | src/main/webapp/jquery-1.8.3.js:966-1024 | A `once memory` list that has fired and is at rest has called every callback added before, during or after firing exactly once, in order, with the same data |
| Callbacks.FirstFireWins | src/main/webapp/jquery-1.8.3.js:1077-1087 | That data is the data of the first fire |
| Refiring.OncePerFire | src/main/webapp/jquery-1.8.3.js:966-1024 | In every run, from the beginning of a fire to that of the next no entry is called twice, whatever is added to a list with memory; all are called with the data of the fire, and when the loop ends all in the list have been |
| Refiring.AddCallsAdded | src/main/webapp/jquery-1.8.3.js:1018-1021 | `add` to a list at rest that remembers a fire calls just what it added, and what is added later, each once and with the remembered data |
| Refiring.AddsInOrder | src/main/webapp/jquery-1.8.3.js:999-1011 | Functions are added in the order given, unless the list is to hold each once only |
| Refiring.ArrayInPlace | src/main/webapp/jquery-1.8.3.js:1006-1009 | An array of callbacks is added as if its members stood in its place; what is no function is ignored |
| Refiring.RunOnce | src/main/webapp/jquery-1.8.3.js:1002-1005 | In every run a list with `unique` holds no callback twice |
| Refiring.StopForgets | src/main/webapp/jquery-1.8.3.js:974-977 | With `stopOnFalse` a `false` ends the firing, and nothing is called until the next fire, whatever is added |
| Refiring.DisabledForGood | src/main/webapp/jquery-1.8.3.js:1056-1059 | In every run a disabled list calls nothing any more, unless it is emptied |
| Refiring.RevivedExactly | src/main/webapp/jquery-1.8.3.js:1051-1054 | `empty`, and nothing else, makes a list of a disabled one |
| Refiring.RevivedFires | src/main/webapp/jquery-1.8.3.js:1051-1059 | Such a list that had not fired calls what is added when it is fired |
| Refiring.LockedForGood | src/main/webapp/jquery-1.8.3.js:1065-1071 | In every run a locked list that has fired begins no further fire |
| CallbackLists.CallbackList.Add | src/main/webapp/jquery-1.8.3.js:995-1024 | Every execution of `add`, with the firing it may start and the callbacks that re-enter, is a run of the machine beginning with that addition |
| CallbackLists.CallbackList.Remove | src/main/webapp/jquery-1.8.3.js:1026-1045 | The splicing loop has exactly the effect of the machine's removal |
| CallbackLists.CallbackList.FireWith | src/main/webapp/jquery-1.8.3.js:1077-1088 | Every execution of `fireWith` is a run of the machine; while firing it only queues |
| CallbackLists.CallbackList.Fire | src/main/webapp/jquery-1.8.3.js:966-991 | The firing loop and the waiting fires after it end, leave the list at rest (or thrown out of), and are a run of the machine |
| CallbackLists.CallbackList.EndFire | src/main/webapp/jquery-1.8.3.js:979-990 | What follows the loop: the next waiting fire, an emptied list, or a disabled one |
| CallbackLists.CallbackList.CallOne | src/main/webapp/jquery-1.8.3.js:973-978 | One turn of the loop with whatever the callback does to the list, a `false` that stops and an exception included |
| Deferreds.StepInv | src/main/webapp/jquery-1.8.3.js:1104-1177 | Every library step and every user action keeps the relation between the three lists and the state |
| Deferreds.OneOutcome | src/main/webapp/jquery-1.8.3.js:1157-1177 | In every run at most one of the done and fail lists fires, and the state says which |
| Deferreds.SettledForGood | src/main/webapp/jquery-1.8.3.js:1166-1168 | The state leaves pending at most once |
| Deferreds.NoLaterEffect | src/main/webapp/jquery-1.8.3.js:1171-1176 | Once settled, no later resolve, reject or notify changes anything |
| Deferreds.SettleSettles | src/main/webapp/jquery-1.8.3.js:1164-1176 | Resolving or rejecting an open Deferred sets the state, disables the other list and locks progress before any listener of the user is called |
| Deferreds.ListenersServed | src/main/webapp/jquery-1.8.3.js:1161-1177 | At rest every listener of the outcome, whenever added, has been called exactly once, in order, with the settling data |
| Notifying.RunLively | src/main/webapp/jquery-1.8.3.js:1109-1109 | In every run the progress list of a Deferred of which neither other list has fired can be added to and fired |
| Notifying.NotifyFires | src/main/webapp/jquery-1.8.3.js:1175-1176 | `notify` on a pending Deferred begins a fire of the progress list with its data, or lets it wait behind the one under way |
| Notifying.NotifyCalls | src/main/webapp/jquery-1.8.3.js:1109-1109 | Until the next fire begins it calls only progress listeners, each at most once and with that data; when its loop is through, each listener in the list has been called |
| Whens.When.Update | src/main/webapp/jquery-1.8.3.js:1204-1214 | One settling counts down once, puts the value at its argument's position, and resolves at zero |
| Whens.When.AddListeners | src/main/webapp/jquery-1.8.3.js:1224-1231 | One turn of the loop keeps count and values in step even when the promise is settled already |
| Whens.When.Register | src/main/webapp/jquery-1.8.3.js:1218-1240 | After the loop the master is what the verdict on the settlings heard so far says |
| Whens.When.Hear | src/main/webapp/jquery-1.8.3.js:1204-1228 | After every later settling the master is again the verdict on all settlings heard |
| Whens.VerdictStable | src/main/webapp/jquery-1.8.3.js:1192-1241 | A master that is settled stays as it is, whatever settles later |
| Whens.ResolvedExactly | src/main/webapp/jquery-1.8.3.js:1192-1241 | Resolved exactly when every promise argument has resolved, rejected exactly when one was rejected |
| Whens.ResolvedValues | src/main/webapp/jquery-1.8.3.js:1204-1214 | Each value stands at the position of its argument: a plain argument itself; of a promise its one value, the array of several, or `undefined` |
| Whens.RejectedUnknown | src/main/webapp/jquery-1.8.3.js:1227-1227 | After a rejection some argument never becomes known, so the count never reaches zero |
| Namespaces.PatternInOrder | src/main/webapp/jquery-1.8.3.js:2786-2786 | For names of characters that mean themselves in a pattern, the regular expression matches a dot-joined string of words exactly when the names occur among the words in order |
| Namespaces.NamespaceTest | src/main/webapp/jquery-1.8.3.js:2858-2883 | On a sorted handler it matches exactly when the names are sorted too, as the code sorts them, and are a sub-multiset of the handler's namespaces |
| Namespaces.PlusExactly | src/main/webapp/jquery-1.8.3.js:2786-2786 | The pattern made of the name `w+` finds exactly the words that prolong `w` by its last character |
| Namespaces.PlusMisses | src/main/webapp/jquery-1.8.3.js:2786-2786 | It never finds the namespace `w+`, for any `w` of characters that mean themselves |
| Handlers.MeetsByPattern | src/main/webapp/jquery-1.8.3.js:2792-2795 | The condition of `remove` with the real pattern is the condition with the sub-multiset test |
| Handlers.SurvivorsExactly | src/main/webapp/jquery-1.8.3.js:2788-2805 | A removal deletes every handler meeting its test, as often as it occurs, and no other |
| Handlers.SurvivorsInOrder | src/main/webapp/jquery-1.8.3.js:2788-2805 | Each survivor stands at the number of survivors before it: the order is kept |
| Handlers.PartInOrder | src/main/webapp/jquery-1.8.3.js:2739-2744 | So do the delegated and the direct handlers, each among themselves |
| Handlers.HandlerList.AddHandler | src/main/webapp/jquery-1.8.3.js:2739-2744 | The list stays delegated handlers, then direct ones, each in order of adding, over the whole history |
| Handlers.HandlerList.Cut | src/main/webapp/jquery-1.8.3.js:2788-2805 | The splicing loop leaves the survivors in order and `delegateCount` counts the delegated among them |
| Handlers.HandlerList.RemoveHandlers | src/main/webapp/jquery-1.8.3.js:2788-2805 | The same, keeping the layout of the list over the whole history |
| Handlers.HandlerList.MatchesAt | src/main/webapp/jquery-1.8.3.js:3015-3029 | Asking each selector once per element, in an object literal, gives the delegated handlers whose selector matches there or has the name of an inherited property |
| Handlers.MatchingExactly | src/main/webapp/jquery-1.8.3.js:3015-3029 | Those are the handlers whose selector matches exactly if no selector that does not match has such a name |
| Handlers.MatchingInOrder | src/main/webapp/jquery-1.8.3.js:3017-3029 | The handlers of an element are those whose selector is taken to match there, in the order of the list |
| Handlers.DelegatedInOrder | src/main/webapp/jquery-1.8.3.js:3011-3033 | The batches stand in the order of the path from the target up: each element that is not skipped and where some selector is taken to match has one batch, at the number of such elements before it, with exactly those handlers |
| Handlers.HandlerList.DelegatedBatches | src/main/webapp/jquery-1.8.3.js:3011-3033 | The walk from the target up yields those batches |
| Handlers.HandlerList.HandlerQueue | src/main/webapp/jquery-1.8.3.js:3007-3040 | The queue holds the batches of delegated handlers from the target up (see `Handlers.DelegatedInOrder`), then exactly the live direct handlers |
| DataIds.TakeFree | src/main/webapp/jquery-1.8.3.js:1569-1569 | A reused id is not live, and taking it keeps ids distinct, free ids unrepeated and all ids below the counter |
| DataIds.GiveId | src/main/webapp/jquery-1.8.3.js:6468-6468 | Giving back an id keeps them so |
| DataIds.DataStore.IdOf | src/main/webapp/jquery-1.8.3.js:1565-1576 | A node's id is stable or fresh, and a reused id brings no data of its former owner |
| DataIds.DataStore.SetData | src/main/webapp/jquery-1.8.3.js:1595-1610 | Exactly the named value of this node changes |
| DataIds.DataStore.GetData | src/main/webapp/jquery-1.8.3.js:1561-1563 | Reading yields what was stored and never allocates an id |
| DataIds.DataStore.RemoveData | src/main/webapp/jquery-1.8.3.js:1632-1709 | Afterwards each named value reads as none, all values without names, and every other value, public or private, and every event type reads as before; the node is freed once when nothing is left; other nodes are untouched |
| DataIds.DataStore.EventRemove | src/main/webapp/jquery-1.8.3.js:2818-2825 | Taking off an event type, the one asked for, another, or none, leaves what `DataIds.TakeOffReads` says, and may free the node, at most once |
| DataIds.TakeOffReads | src/main/webapp/jquery-1.8.3.js:2818-2825 | Only that type is taken off: all other types and all data read as before |
| DataIds.DataStore.CleanOne | src/main/webapp/jquery-1.8.3.js:6432-6471 | Although the node may be freed inside the loop over its event types, its id is given back exactly once |
| DataIds.DataStore.CleanData | src/main/webapp/jquery-1.8.3.js:6422-6473 | Afterwards none of the nodes has an id, and all others keep their data |
| AjaxConvert.Convert | src/main/webapp/jquery-1.8.3.js:8098-8159 | The loop that inserts into the list it walks ends, has less than doubled the list, and yields what the recursive walk over the original targets yields |
| AjaxConvert.PairSplits | src/main/webapp/jquery-1.8.3.js:8110-8136 | An inserted type leads on directly, so no target is split twice |
| AjaxConvert.StepExactly | src/main/webapp/jquery-1.8.3.js:8104-8152 | A step reaches a value by the converter of the exact key, or else the one for any type, or else the first pair in key order; there is no conversion exactly if neither exists; a converter that throws gives an error, or the exception if it is to bubble |
| AjaxConvert.WalkIsChain | src/main/webapp/jquery-1.8.3.js:8098-8159 | The response goes through the named types in turn, `*` asking for nothing, up to the last or to the first step that fails, whose failure is the outcome |
| AjaxConvert.StepTyped | src/main/webapp/jquery-1.8.3.js:8104-8152 | A step takes a value of the declared previous type to one of the next type |
| AjaxConvert.WalkTyped | src/main/webapp/jquery-1.8.3.js:8077-8160 | A successful conversion yields a value of the last type requested |
| Permutations.Permutations | src/test/java/rev/gretty/homerest/unit/test/BankAccountsAsArgument.java:40-73 | The three nested loops compute the list that the recursive definition says |
| Permutations.ExtendAt | src/test/java/rev/gretty/homerest/unit/test/BankAccountsAsArgument.java:54-69 | Taking an entry out and adding its extensions at the end keeps the part still to be extended in place |
| Permutations.PermsCount | src/test/java/rev/gretty/homerest/unit/test/BankAccountsAsArgument.java:40-73 | A string of length n gives n! strings |
| Permutations.PermsAreRearrangements | src/test/java/rev/gretty/homerest/unit/test/BankAccountsAsArgument.java:40-73 | The strings are exactly the rearrangements of the input |
| Permutations.DistinctExactly | src/test/java/rev/gretty/homerest/unit/test/BankAccountsAsArgument.java:40-73 | None occurs twice exactly when no character does |
| Transfers.BankTransaction.SetTransactionAmount | src/main/java/rev/gretty/homerest/entity/BankTransaction.java:110-132 | A missing amount becomes zero, a negative one is refused and changes nothing |
| Transfers.BankAccount.SetCurrentBalance | src/main/java/rev/gretty/homerest/entity/BankAccount.java:142-156 | A negative balance is refused and changes nothing |
| Transfers.AccountService.MoveMoney | src/main/java/rev/gretty/homerest/service/impl/AccountServiceImpl.java:398-523 | The credit and the debit branch have one common effect on the table |
| Transfers.AccountService.TransactInAccounts | src/main/java/rev/gretty/homerest/service/impl/AccountServiceImpl.java:346-545 | The loop over the accounts leaves the table the specification says and throws exactly when that refuses |
| Transfers.MoveConserves | src/main/java/rev/gretty/homerest/service/impl/AccountServiceImpl.java:409-452 | A move between two accounts keeps the total and non-negativity, and touches no other account |
| Transfers.SelfTransfer | src/main/java/rev/gretty/homerest/service/impl/AccountServiceImpl.java:360-542 | A transfer from an account to itself keeps the total exactly if its first pass moves nothing or the amount is zero; with another account handed in it gains the amount once and is then refused |
| Transfers.TransferOnce | src/main/java/rev/gretty/homerest/service/impl/AccountServiceImpl.java:360-542 | Despite two passes the amount moves once: the debited row has status 10, the credited row status 20, and nothing else changes; a transfer is accepted exactly when currencies agree and no balance would be negative; a refused one changes nothing |
| Transfers.CreditIsDebit | src/main/java/rev/gretty/homerest/service/impl/AccountServiceImpl.java:398-523 | Credit and debit have the same effect |
| Transfers.OtherKinds | src/main/java/rev/gretty/homerest/service/impl/AccountServiceImpl.java:523-531 | Any other transaction type moves nothing |
| Transfers.RefusedUnchangedExactly | src/main/java/rev/gretty/homerest/service/impl/AccountServiceImpl.java:377-396 | With stale accounts handed in, a refused transfer has changed the table exactly when the first pass moved money and the currencies then read do not agree |
| Transfers.RunsConserve | src/main/java/rev/gretty/homerest/service/impl/AccountServiceImpl.java:346-545 | Over any sequence of transfers between two accounts the total is constant and no balance is negative |

## Left out

- SetMatching.SetMatch: a seed is always given and there is no post finder, so set matches found from a context, and contexts reached through a later combinator, are not modelled.
- SetMatching.CondensedExactly: is for filters of one stamped walk; of filters with nested stamped walks it is proved that they are right without clashes and never keep wrongly, not which clashes are harmless because another stamp was written over.
- SetMatching.OutcomeAddsExactly: is for post filters that test elements; of second positions `:first` is treated, in `SetMatching.OutcomeFirstExactly`.
- SuperMatching.SuperMatcher.Search: is the outermost search on a seed whose holes are `false`; nested searches with their non-integer run numbers, `:has`, `:not`, and an `undefined` entry that ends the loop early are not modelled.
- Compiling.Compiler.MatcherFromTokens: the finder that a combinator behind a positional filter asks for is compiled, but running it is not modelled.
- DocumentOrder.UniqueSort: takes the outcome of the native `sort` as given, an ordered rearrangement with the duplicate flag set if it met equal nodes; the `sourceIndex` and `compareDocumentPosition` shortcuts are not modelled.
- Callbacks.NoneSkippedNoneRepeated: is for runs in which `empty` is not called while the list fires; adding and removing are unrestricted.
- CallbackLists.CallbackList.Fire: callbacks act on the list they are called from; what they do to other objects, and contexts (`this`), are not modelled.
- Deferreds.StepInv: a Deferred is a value made of three list machines, with `CallbackLists` for the lists in place; `then`, `always` and callbacks that act on other Deferreds are not modelled.
- Whens.When.Register: `notify`, the contexts, and the case of one promise, which is its own master, are not modelled.
- DataIds.DataStore.CleanData: is for nodes that accept data; plain objects as owners and hooks that ask for data while a node is cleaned are not modelled.
- DataIds.DataStore.GetData: the private names `data`, `events` and `handle` have fields of their own and are not read by name.
- DataIds.DataStore.SetData: keys are taken as they are, without camel case; the object form and values under the reserved private names are not modelled.
- AjaxConvert.Convert: the table is the map with lower-cased keys, its values are functions or `true`; falsy table entries and `dataFilter` are not modelled.
- Handlers.HandlerList.MatchesAt: the inherited names are those of ECMA-262; names an engine adds to them, such as `__proto__`, are not modelled.
- Handlers.HandlerList.AddHandler: the set-up, add, remove and tear-down hooks and the loop of `dispatch` over its queue are not modelled.
- Namespaces.NamespaceTest: names with characters that mean something in a pattern are not modelled, but for a `+` at the end, in `Namespaces.PlusExactly`.
- NthChild.NthChild: reading the argument from text is not modelled; its captured parts are given.
- Transfers.AccountService.TransactInAccounts: amounts are whole cents; Hibernate, failing updates, locks and the decimal column are not modelled, nor is the setter that takes a `MonetaryAmount`.
- Selector lexing, attribute and class tests: tokens are given and a simple test is any predicate on nodes.
- Browser access, feature detection, styles, animation, transports, HTML fragments and `querySelectorAll`: foreign calls with no meaning to state.
- Servlets, handlers, wiring, JSON printing, templates and SQL: plumbing.
