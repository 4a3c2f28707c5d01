# A model of Logprep's rule matching, templates and supervision

Logprep is a log processor: processors hold rules, a rule has a boolean filter over the fields of an
event, and the rules that match an event change it. This project models the parts of it in which the
most can go wrong and proves what they promise. Every file is one module.

## What is modelled

**The rule tree.** A processor does not ask every rule whether it matches. It compiles the filters into
a shared decision tree and walks that. The model follows the whole way: `FilterExpressions` (what a
filter is and when it matches a document), `FilterMeaning` (what it says of events whose fields are
known), `DeMorgan` (negations are pushed inwards, in place), `Segmenter` and `SegmenterInPlace`
(conversion to disjunctive normal form, as functions and with the program's list edits, including the
list that is changed while it is iterated over), `Sorter`, `Tagger`, `RuleParser` and
`RuleParserInPlace` (the passes of `parse_rule` and all of them together) and `RuleTree`
(nodes, attached rules, matching, size). `SegmenterProofs` and `Acceptance` prove what the conversion
keeps, how big its result is and when it succeeds. `Processor` loads rules, applies them once or until
nothing new matches, and compares the tree with the path that bypasses it. The main results:

- After any `add_rule` calls, `get_matching_rules` gives the rules of the depth-first walk, each at its first
  occurrence. These are exactly the known rules that have not both the filter and the configuration of a rule known
  before, and one of whose conjunctions matches; without tags, those whose own filter matches
  (`RuleTree.RuleTree.GetMatchingRules`). With tags some of the latter.
- Applying rules repeatedly ends, and each round applies exactly the rules that are given for the event at its
  beginning and were not applied before (`Processor.ProcessMultipleTimes`).
- Without tags the tree and the path that bypasses it select the same rules for an event if and only if no matching
  rule equals an earlier one (`Processor.TreeIsBypass`, and `Processor.ProcessAll` for what is applied).
- The disjunctive normal form means what the filter means, loses no literal, and is as large as the
  product of the alternatives.
- A filter is skipped exactly if it puts a double negation before a compound expression, makes an `Always` one of
  several conjuncts, or leads to a list in which a tag of two or more colons is met that the list's first expression
  does not say, or that comes behind another new tag (`RuleParser.AcceptedFilters`).
- The trie keeps its invariant: siblings differ, rules are attached exactly at the ends of their
  conjunctions, and `get_size` counts the different beginnings of conjunctions.

**Field mapping templates.** A small language with a lexer, a parser, a validator, a constant folder and
an evaluator: `TemplateLexer`, `TemplateParser`, `TemplateOperations`, `TemplateLoops` (compilation and
evaluation with the program's loops) and `FieldMappingTemplate` (from the configuration to the result). The
lexer and the parser are cursor machines proved against functions. `TemplatePrinting` and
`TemplateRoundTrip` prove that what is printed in the documented syntax scans and parses back, `TemplateSyntax` is
about other spellings and about refusals, `TemplateMeaning` says what operations evaluate to and which are valid,
`TemplateTrees` and `TemplateProofs` that compiling whatever was parsed keeps the meaning, the calls and the
errors, and that results share nothing with the runtime context, the static context or the compiled template;
`TemplateEscaping` is about configurations without expressions.

**The blocking circuit breaker.** `Breaker` interleaves any number of calls at their awaits, and proves one call in
the program's own form, with its loop and blocks, to be part of such an interleaving; `Backoff` holds the arithmetic
of the delays, over real numbers.

**Supporting parts.** `DottedFields` (dotted names and back), `EventFields` and `EventDicts` (adding fields
to nested dictionaries and popping them, as functions and in place), `TimeCache`, `Batching`, and
`PipelineManager` (the manager of the processes and the runner's supervising loop).

## Where the code is not what one would expect

These are proved of the code as it is, for all inputs and at a concrete one.

- Of rules with equal filter and configuration, which are different objects all the same, the tree gives only the one
  added first; the path that bypasses it applies all of them. `Processor.TreeIsBypass` says when the two paths differ,
  `Processor.TwoEqualRules` adds two such rules. Since filters are rewritten when they are added, they may have been
  written differently (`Processor.RewritingMakesEqual`).
- A tag with two colons cannot be split, but it only makes tagging fail where the first expression of a list does not
  say it. So the priorities, which order the lists, can decide whether a rule is skipped:
  `RuleParser.PrioritiesDoNotDecide` says when they do not, `RuleParser.PrioritiesCanDecide` has a filter for which they
  do.
- A backslash in a field name does not survive joining and splitting, except at the end of the last name
  (`DottedFields.RoundTrip`, `DottedFields.BackslashIsLost`).
- Popping a field that is absent can delete something else: a falsy value at which its path ends is dropped.
  `EventFields.PopOfAbsent` says when; popping a.b from `{"a": 0}` leaves `{}` (`EventFields.PopDeletesOther`).
- With `restart_count` set to zero the runner gives up in its first round, failed processes or not
  (`PipelineManager.GivesUpExactly`, and `PipelineManager.ZeroGivesUpAtOnce` with two living processes).
- The backoff's clamp at 64 doublings is described as exceeding any maximum. That is so exactly if
  `initial * 2 ** 64` reaches the maximum (`Backoff.ClampIsUnnoticed`); `Backoff.ClampIsNoticed` has a policy for
  which it does not.
- A semicolon inside an event is counted by the batcher as a separator. No event is lost by that, but batches come
  out too small or too large; `Batching.SizesHoldExactly` says when, `Batching.SemicolonsCountTwice` has two events.
- A template whose expression begins with a literal is refused, also when the literal is only piped into a
  function (`TemplateRoundTrip.ExpressionRoundTrip`): `${"1" | int()}` is, `${int("1")}` is not
  (`TemplateRoundTrip.PipedLiteralIsRefused`).
- While no more time than the cache's window has passed since 1970, unknown items count as stored and nothing is
  evicted, so that the cache can outgrow `max_items`: `TimeCache.SizeIsKept` says when, `TimeCache.EarlyCacheOutgrows`
  has two queries.

## Conventions

A function in the model that has the shape of a method of the program is its specification; the method in
the program's own form, with its loop or its updates, is proved equal to it, and the lemmas are about the
function. Exceptions are results (`Common.Result`). What comes from outside - regular expressions, `str` of a
value, the clock, random draws, which processes died, how a send ends - is a parameter, and every statement
holds for all of it.

## Model

| member | source | states |
|---|---|---|
| DottedFields.RoundTrip | logprep/util/helper.py:527-544 | splitting the joined names gives the names back if and only if no name holds a backslash, but for one that may end the last name |
| DottedFields.FastPathAgrees | logprep/util/helper.py:503-524 | on a text without backslashes splitting at the dots is what the character loop does |
| DottedFields.SplitAndJoined | logprep/util/helper.py:503-544 | joining the names that a text without backslashes was split into gives the text |
| DottedFields.BackslashIsLost | logprep/util/helper.py:527-544 | a concrete list of names that does not come back |
| DottedFields.ParseFieldList | logprep/util/helper.py:488-524 | the loop over the characters, with its buffer, gives the field list of the specification |
| Documents.GetValue | logprep/filter/expression/filter_expression.py:84-97 | the walk with a moving `current` finds exactly the value that the path leads to, through dictionaries only |
| Documents.PathExists | logprep/filter/expression/filter_expression.py:449-467 | reports whether the path leads to a value, whatever the value |
| Documents.FieldSteps | logprep/filter/expression/filter_expression.py:84-97 | a path longer by a key leads to that key of the dictionary that the path leads to, and nowhere otherwise |
| FilterMeaning.FieldDecides | logprep/filter/expression/filter_expression.py:207-212 | what an expression on a field says of every value that the field may have, and of a missing field |
| FilterMeaning.PartsDecide | logprep/filter/expression/filter_expression.py:119-161 | negation, conjunction and disjunction of the children, place by place |
| FilterMeaning.AddedFieldMatches | logprep/util/helper.py:94-163 | an added field exists and is matched by its text, a popped one does not exist |
| FilterExpressions.MatchNeedsKey | logprep/filter/expression/filter_expression.py:39-64 | an expression on a key that matches finds its key in the document |
| FilterExpressions.ReprShowsBase | logprep/filter/expression/filter_expression.py:114-130 | expressions that print alike have bases of the same kind, which is why a sorting key stored under a `repr` fits |
| FilterExpressions.FieldsPrint | logprep/filter/expression/filter_expression.py:197-215 | the printed form of every kind of expression on a field |
| FilterExpressions.CompoundsPrint | logprep/filter/expression/filter_expression.py:114-161 | the printed form of the other expressions |
| DeMorgan.ResolveKeepsMeaning | logprep/framework/rule_tree/demorgan_resolver.py:20-43 | the resolved expression matches the same documents |
| DeMorgan.ResolveResolves | logprep/framework/rule_tree/demorgan_resolver.py:45-67 | no And or Or is left under a single negation on the way down through compounds |
| DeMorgan.ResolveAgain | logprep/framework/rule_tree/demorgan_resolver.py:69-75 | resolving an expression that was rewritten in place before gives the same result again |
| DeMorgan.AfterResolveKeepsMeaning | logprep/framework/rule_tree/demorgan_resolver.py:69-75 | the caller's expression, whose children were replaced in place, still matches the same documents |
| DeMorgan.NegationsAtTheTop | logprep/framework/rule_tree/demorgan_resolver.py:69-75 | a negated compound is rewritten where it is a child, and stays in the rule where it is the whole filter |
| SegmenterProofs.ConvertMeaning | logprep/framework/rule_tree/rule_segmenter.py:195-238 | some conjunction of the converted list matches if and only if the conjunctive form does |
| SegmenterProofs.FlattenMeaning | logprep/framework/rule_tree/rule_segmenter.py:152-159 | flattening tuples while iterating keeps the meaning of the list |
| SegmenterProofs.SegmentMeaning | logprep/framework/rule_tree/rule_segmenter.py:88-121 | a segmented expression matches what the expression matches, and is never an empty conjunction |
| SegmenterProofs.SegmentIntoDnfMeaning | logprep/framework/rule_tree/rule_segmenter.py:48-56 | for every document the filter matches if and only if all expressions of some inner list match |
| SegmenterProofs.ConvertLiterals | logprep/framework/rule_tree/rule_segmenter.py:195-238 | converting loses no expression and adds none, and no conjunction gets shorter than the conjunctive form |
| SegmenterProofs.SegmentIntoDnfLiterals | logprep/framework/rule_tree/rule_segmenter.py:48-56 | the inner lists hold exactly the leaves of the filter |
| Segmenter.FlattenIsFlat | logprep/framework/rule_tree/rule_segmenter.py:152-159 | the mutating iteration leaves no tuple behind |
| Segmenter.DocumentedExample | logprep/framework/rule_tree/rule_segmenter.py:32-43 | the documented example, with its order, for all literals |
| Acceptance.ConvertSize | logprep/framework/rule_tree/rule_segmenter.py:195-238 | converting yields as many conjunctions as the product of the sizes of the alternatives |
| Acceptance.SegmentIntoDnfSucceeds | logprep/framework/rule_tree/rule_segmenter.py:48-134 | segmentation fails exactly if a disjunction hides under a negation |
| Acceptance.SegmentIntoDnfMixes | logprep/framework/rule_tree/rule_segmenter.py:48-56 | an inner list of two or more holds an `Always` exactly if one is a conjunct among others in the filter |
| SegmenterInPlace.ReplaceTuple | logprep/framework/rule_tree/rule_segmenter.py:156-159 | removes the first equal tuple and puts its elements in front one by one, as the specification does |
| SegmenterInPlace.FlattenTuples | logprep/framework/rule_tree/rule_segmenter.py:152-159 | the loop that mutates the list it iterates over by position ends, meets every tuple, and leaves the flattened list |
| SegmenterInPlace.PopDisjunctiveSegment | logprep/framework/rule_tree/rule_segmenter.py:241-263 | takes out the first list of alternatives and leaves the rest in order |
| SegmenterInPlace.ConvertCnfToDnf | logprep/framework/rule_tree/rule_segmenter.py:195-238 | ends, yields the conversion of the specification, in lists that are all new and different objects |
| SegmenterInPlace.ResolveDisjunctiveSegment | logprep/framework/rule_tree/rule_segmenter.py:266-269 | appends one new list for every alternative |
| Sorter.SortingPermutes | logprep/framework/rule_tree/rule_sorter.py:41-50 | every list keeps its expressions, each as often as before |
| Sorter.StableSortSorts | logprep/framework/rule_tree/rule_sorter.py:49-50 | the result is in the order of the keys, and expressions with one key keep their order |
| Sorter.TextLeqExactly | logprep/framework/rule_tree/rule_sorter.py:49-50 | keys compare like words in a dictionary |
| Sorter.KeyExactly | logprep/framework/rule_tree/rule_sorter.py:53-99 | a literal is sorted by the priority of its field or by its printed form, whatever negations are before it |
| Sorter.PrioritiesDoNotMatter | logprep/framework/rule_tree/rule_sorter.py:53-99 | with any two priority maps of strings the same filters can be sorted |
| Sorter.SortingSucceeds | logprep/framework/rule_tree/rule_sorter.py:22-99 | sorting succeeds if and only if no literal hides a compound and no list of two or more holds an `Always` |
| Tagger.GuardKeepsMeaning | logprep/framework/rule_tree/rule_parser.py:108-134 | inserting `Exists` expressions changes no match, since a literal that matches finds its field |
| Tagger.GuardGuards | logprep/framework/rule_tree/rule_parser.py:124-134 | every plain literal on a field gets its `Exists`, nothing is lost and nothing else is added |
| Tagger.ListsAreGuarded | logprep/framework/rule_tree/rule_parser.py:108-134 | the same for a whole list, with the kinds of expressions spelled out |
| Tagger.GuardOrder | logprep/framework/rule_tree/rule_parser.py:124-134 | guards aside the list keeps its order, and every guard is right in front of a literal of its field |
| Tagger.TagsArePrefixed | logprep/framework/rule_tree/rule_tagger.py:58-64 | tagging only puts expressions in front of the list |
| Tagger.TagsOnlyNarrow | logprep/framework/rule_tree/rule_tagger.py:58-100 | a tagged list matches only where the list matches without tags |
| Tagger.TaggedMatch | logprep/framework/rule_tree/rule_tagger.py:58-99 | a tagged list matches if and only if the list matches and the field, or field and value, of every new tag is there; the tag of an expression is new unless it is said already |
| Tagger.OwnTagIsSaid | logprep/framework/rule_tree/rule_tagger.py:92-122 | what was put in front for a tag says the tag, so that it is not put there twice |
| Tagger.LiteralsAreTagged | logprep/framework/rule_tree/rule_tagger.py:58-70 | a literal and its negation are tagged alike, nothing else is |
| Tagger.TaggingFails | logprep/framework/rule_tree/rule_tagger.py:58-100 | tagging fails if and only if a tag that cannot be split is met where the first expression of the list does not say it, or behind another tag that it does not say |
| Tagger.AddedIsNoBadTag | logprep/framework/rule_tree/rule_tagger.py:92-99 | what was put in front for a tag never says a tag that cannot be split |
| RuleParser.ParsingKeepsMeaning | logprep/framework/rule_tree/rule_parser.py:100-105 | without tags the parsed rule matches exactly the documents that the rule's filter matches |
| RuleParser.TaggingOnlyNarrows | logprep/framework/rule_tree/rule_parser.py:100-105 | with any tag map, where the parsed rule matches the rule's own filter matches |
| RuleParser.PrioritiesDoNotDecide | logprep/framework/rule_tree/rule_parser.py:100-105 | which filters are accepted does not depend on the priorities, without tags and with any tags of at most one colon; with other tags exactly if the priorities do not decide whether a tag is met that cannot be split |
| RuleParser.PrioritiesCanDecide | logprep/framework/rule_tree/rule_tagger.py:92-99 | a filter and a tag of two colons that are accepted without priorities and refused with one |
| RuleParser.ParsingAgain | logprep/framework/rule_tree/rule_parser.py:100-105 | parsing a filter that was rewritten by parsing gives the same lists |
| RuleParser.ParsedNotEmpty | logprep/framework/rule_tree/rule_parser.py:100-105 | no list of a parsed rule is empty, so no rule is attached to the root |
| RuleParser.AcceptedFilters | logprep/framework/rule_tree/rule_parser.py:100-105 | a filter parses if and only if it has no double negation before a compound, no `Always` among several conjuncts, and no list in which a tag is met that cannot be split; tags of at most one colon always can be |
| RuleParser.SafeTagsDoNotDecide | logprep/framework/rule_tree/rule_tagger.py:34-100 | with tags of at most one colon a filter parses if and only if it parses without them |
| RuleParser.ParsedLiterals | logprep/framework/rule_tree/rule_parser.py:100-105 | every expression in a parsed rule, behind sorting, guards and tags, is a literal: no compound, and none under a negation |
| RuleParserInPlace.Segmented | logprep/framework/rule_tree/rule_segmenter.py:88-121 | the recursion with its list objects gives the segments of the specification; the lists it returns are new and all different |
| RuleParserInPlace.SegmentedIntoDnf | logprep/framework/rule_tree/rule_segmenter.py:48-56 | the list objects hold the normal form of the specification, all new and different |
| RuleParserInPlace.SortInPlace | logprep/framework/rule_tree/rule_sorter.py:22-50 | fills the table of keys and sorts every list object in place, as specified, or fails as specified |
| RuleParserInPlace.GuardInPlace | logprep/framework/rule_tree/rule_parser.py:108-134 | the insertions with a running offset leave every list object as specified |
| RuleParserInPlace.TagInPlace | logprep/framework/rule_tree/rule_tagger.py:34-56 | tags every list object in place, or fails as specified |
| RuleParserInPlace.ParseRule | logprep/framework/rule_tree/rule_parser.py:47-105 | all passes together, on the list objects that segmenting made, give the parsed filter of the specification; the lists are new and all different |
| RuleTree.Node.GetChildWithExpression | logprep/framework/rule_tree/node.py:72-93 | finds a child that carries an equal expression, and none only if there is none |
| RuleTree.DeduplicatedItems | logprep/util/helper.py:775-788 | every item is kept, each once |
| RuleTree.DeduplicatedOrder | logprep/util/helper.py:775-788 | the items that are kept are in the order of their first occurrences |
| RuleTree.Deduplicate | logprep/util/helper.py:775-788 | the loop gives the deduplicated items of the specification |
| RuleTree.Trie.AddLeaf | logprep/framework/rule_tree/rule_tree.py:186-197 | a new child for an expression that no sibling carries keeps the tree a trie |
| RuleTree.Index.ExtendingRepresents | logprep/framework/rule_tree/rule_tree.py:164-197 | attaching a rule to the end of one more conjunction keeps the attachments exact |
| RuleTree.Index.ConjunctionAdded | logprep/framework/rule_tree/rule_tree.py:158-162 | attaching a rule unless an equal one is attached leaves each class of equal rules at exactly its conjunctions, by the first of its rules |
| RuleTree.Index.HitsAreOfChildren | logprep/framework/rule_tree/rule_tree.py:242-252 | the rules reached over matching ways are those the matching children give |
| RuleTree.Index.HitsOfRoot | logprep/framework/rule_tree/rule_tree.py:242-252 | the root gives exactly the rules one of whose conjunctions matches |
| RuleTree.Index.FoundNext | logprep/framework/rule_tree/rule_tree.py:242-252 | the walk goes through the children in order, and takes the rules of a matching child before those below it |
| RuleTree.Index.FoundIsHits | logprep/framework/rule_tree/rule_tree.py:242-252 | the depth-first walk finds the rules on all ways that match, and no others |
| RuleTree.Index.NodesArePrefixes | logprep/framework/rule_tree/rule_tree.py:281-306 | the nodes below the root are as many as there are different non-empty beginnings of conjunctions |
| RuleTree.RuleTree.Descend | logprep/framework/rule_tree/rule_tree.py:186-197 | goes to the child with the expression, or adds it; existing ways and attachments stay |
| RuleTree.RuleTree.AddParsedRule | logprep/framework/rule_tree/rule_tree.py:164-197 | the walk ends at the node of the conjunction; only nodes on the way to it are new |
| RuleTree.RuleTree.AddConjunctions | logprep/framework/rule_tree/rule_tree.py:158-162 | after the loop the rule, or the equal one that was attached before, is attached at exactly its conjunctions, all other attachments are kept |
| RuleTree.RuleTree.AddRule | logprep/framework/rule_tree/rule_tree.py:133-162 | keeps the invariant of the tree; a rule that cannot be parsed is skipped and changes nothing, any other one is registered, and attached unless an equal one is; the filter is rewritten either way |
| RuleTree.RuleTree.RetrieveMatchingRules | logprep/framework/rule_tree/rule_tree.py:242-252 | appends the rules of the depth-first walk below the node, in its order |
| RuleTree.RuleTree.RulesGiven | logprep/framework/rule_tree/rule_tree.py:218-252 | the tree gives a rule if and only if it is known, equals no rule known before it, and one of its conjunctions matches |
| RuleTree.RuleTree.GetMatchingRules | logprep/framework/rule_tree/rule_tree.py:218-240 | the depth-first walk with each rule at its first occurrence: exactly the known rules that have not both the filter and the configuration of a rule known before, and one of whose conjunctions matches; without tags those whose own filter matches |
| RuleTree.RuleTree.GetSize | logprep/framework/rule_tree/rule_tree.py:281-306 | the number of different non-empty beginnings of the conjunctions of all known rules, equal ones included |
| Processor.LoadRules | logprep/abc/processor.py:266-274 | the tree holds exactly the rules whose filter can be parsed |
| Processor.GivenIsMatching | logprep/abc/processor.py:203-226 | what the tree gives matches; without tags it gives a known rule if and only if its filter matches and no rule known before has both its filter and its configuration |
| Processor.TreeIsBypass | logprep/abc/processor.py:203-226 | without tags the tree selects the rules whose own filter matches, as the bypass does, if and only if no matching rule equals an earlier one |
| Processor.TwoEqualRules | logprep/processor/base/rule.py:296-302 | of two equal rules both are known and match, and only the first is given |
| Processor.TwoConfigurations | logprep/processor/base/rule.py:296-302 | of two rules with one filter and different configurations both are given |
| Processor.RewritingMakesEqual | logprep/framework/rule_tree/demorgan_resolver.py:69-75 | two filters that differ are the same once they were rewritten in place |
| Processor.ProcessOnce | logprep/abc/processor.py:212-215 | applies the rules given for the event as it came in, in the order of the walk |
| Processor.AppliedMore | logprep/abc/processor.py:198-201 | a rule is applied to the event as the rules before left it |
| Processor.ProcessMultipleTimes | logprep/abc/processor.py:203-210 | ends whatever rules do to the event; every round applies exactly the rules that are given for the event at its beginning and were not applied before, the first one in the order of the walk, until none is left |
| Processor.RoundsMatch | logprep/abc/processor.py:203-210 | a rule of a round matches the event as the rounds before left it, and is in no other round before |
| Processor.ProcessAll | logprep/abc/processor.py:223-226 | the bypass asks each filter about the event as the rules before left it; if the rules that it applies leave the answers of the filters alone, it applies without tags the rules that the tree gives if and only if no matching rule equals an earlier one |
| Processor.BypassedExactly | logprep/abc/processor.py:223-226 | the bypass applies a rule if and only if it matches the event as the rules applied before left it |
| TemplateLexer.TokensTile | logprep/util/field_mapping_template.py:256-285 | scanning goes on from a tiled beginning to tokens that tile the template and begin with those it had |
| TemplateLexer.TemplateIsTiled | logprep/util/field_mapping_template.py:256-285 | the tokens of a template cover it without gap or overlap, each scanned where the one before it ends |
| TemplateLexer.Lexer.ReadCharacters | logprep/util/field_mapping_template.py:125-170 | the loop over escapes and ends of text takes the text of the specification and moves the cursor behind it |
| TemplateLexer.Lexer.ReadQuotedString | logprep/util/field_mapping_template.py:172-197 | takes a quoted string with its escapes, or fails at the specified place |
| TemplateLexer.Lexer.ReadExpressionToken | logprep/util/field_mapping_template.py:228-254 | takes the next token inside an expression |
| TemplateLexer.Lexer.ScanTemplate | logprep/util/field_mapping_template.py:256-285 | ends, and gives the tokens of the specification |
| TemplateParser.Parser.IsSequence | logprep/util/field_mapping_template.py:425-451 | looks ahead without moving whether tokens of these kinds follow, whitespace aside |
| TemplateParser.Parser.ReadLookup | logprep/util/field_mapping_template.py:453-473 | reads the segments of a path and leaves the cursor behind them |
| TemplateParser.Parser.ReadValue | logprep/util/field_mapping_template.py:475-506 | reads a literal, a call or a lookup |
| TemplateParser.Parser.ReadExpression | logprep/util/field_mapping_template.py:508-535 | reads a value and the pipes behind it |
| TemplateParser.Parser.ReadMoreArguments | logprep/util/field_mapping_template.py:537-591 | the loop over arguments, positional ones before keywords, no keyword twice |
| TemplateParser.Parser.ReadTemplate | logprep/util/field_mapping_template.py:593-642 | the parser object gives what the specification says of the tokens, or its error |
| TemplatePrinting.ScanEscapedName | logprep/util/field_mapping_template.py:125-170 | an escaped name scans back to the name |
| TemplatePrinting.ScanEscapedQuoted | logprep/util/field_mapping_template.py:172-197 | an escaped string scans back to the string |
| TemplateRoundTrip.IntegerRoundTrip | logprep/util/field_mapping_template.py:475-506 | the decimal text of an integer is read as that integer |
| TemplatePrinting.ScanExpression | logprep/util/field_mapping_template.py:228-285 | a printed expression scans to the tokens expected of it, whatever may follow it in a template |
| TemplateRoundTrip.ParsePrinted | logprep/util/field_mapping_template.py:508-535 | those tokens parse back to the expression and leave what follows to the pipes |
| TemplateRoundTrip.ExpressionRoundTrip | logprep/util/field_mapping_template.py:593-642 | every printable tree, printed as nested calls or as pipes, scans and parses back to itself, unless it would begin with a literal: then it is refused |
| TemplateRoundTrip.PipesAreNestedCalls | logprep/util/field_mapping_template.py:508-535 | a chain of pipes and the nested call it stands for parse to the same tree |
| TemplateRoundTrip.PipedLiteralIsRefused | logprep/util/field_mapping_template.py:612-624 | a literal piped into a function is refused where the nested call is not |
| TemplateRoundTrip.TextRoundTrip | logprep/util/field_mapping_template.py:593-642 | escaped literal text comes back as that text |
| TemplateSyntax.QuoteBeginsText | logprep/util/field_mapping_template.py:172-197 | either kind of quotes encloses a text in which backslashes and these quotes are escaped |
| TemplateSyntax.OpenTextFails | logprep/util/field_mapping_template.py:172-197 | a text that is not closed, or ends in a backslash, fails at the reported place |
| TemplateSyntax.TrailingBackslashFails | logprep/util/field_mapping_template.py:125-170 | literal text that ends in a backslash fails there |
| TemplateSyntax.WordsAreLiterals | logprep/util/field_mapping_template.py:125-170 | where a value begins these six words, if no path follows, and no others are literals |
| TemplateSyntax.LiteralsAreRead | logprep/util/field_mapping_template.py:475-506 | what literal tokens are read as |
| TemplateSyntax.SpacesAreSpaces | logprep/util/field_mapping_template.py:228-254 | blanks, tabs and line ends are white space, which is skipped |
| TemplateSyntax.NumbersAreScanned | logprep/util/field_mapping_template.py:199-226 | digits with their underscores and a sign are an integer, with a fraction or an exponent a float |
| TemplateSyntax.DigitsInNames | logprep/util/field_mapping_template.py:199-226 | digits that a letter follows are no number |
| TemplateSyntax.IntegersAreRead | logprep/util/field_mapping_template.py:475-506 | signs count in an integer, underscores do not |
| TemplateSyntax.NamedArgument | logprep/util/field_mapping_template.py:537-591 | a keyword argument is added, unless its keyword was given before or is no identifier |
| TemplateSyntax.PositionalBehindKeyword | logprep/util/field_mapping_template.py:537-591 | behind a keyword argument a positional one is refused |
| TemplateSyntax.ArgumentsAreValid | logprep/util/field_mapping_template.py:537-591 | whatever arguments parse, their keywords are identifiers and all different |
| TemplateSyntax.PipesNeedNoParentheses | logprep/util/field_mapping_template.py:508-535 | behind a pipe a name alone is a call |
| TemplateSyntax.NothingBehindExpression | logprep/util/field_mapping_template.py:593-642 | behind the expression nothing else is accepted |
| TemplateSyntax.TemplatesAreWhole | logprep/util/field_mapping_template.py:593-642 | literal text is a template only alone |
| TemplateSyntax.NamesNeedPaths | logprep/util/field_mapping_template.py:453-473 | a name without a path is no lookup |
| TemplateOperations.CopyOfOwn | logprep/util/field_mapping_template.py:930-934 | copying a constant of the template gives the value it was made of, whoever owns its parts |
| TemplateOperations.CopyIsFresh | logprep/util/field_mapping_template.py:930-934 | nothing mutable in a copy belongs to a context or to the template |
| TemplateMeaning.PathOneMore | logprep/util/helper.py:362-388 | a path longer by a segment leads to that item of what the path leads to, the empty path to the value itself |
| TemplateMeaning.ItemExactly | logprep/util/helper.py:249-293 | the item of a dictionary is its field, that of a list is left to indexing, other values have none |
| TemplateMeaning.PathLeadsExactly | logprep/util/helper.py:362-388 | a path leads somewhere if and only if every segment does |
| TemplateMeaning.PutIsFound | logprep/util/helper.py:362-388 | what was put at a path of nested dictionaries is what the path leads to |
| TemplateMeaning.PutLeavesOthers | logprep/util/helper.py:362-388 | a path that parts from it leads to what it led to |
| TemplateMeaning.LookupEvaluates | logprep/util/field_mapping_template.py:920-942 | a lookup gives a copy of what is at its path, and is missing if and only if a segment of the path leads nowhere |
| TemplateMeaning.LookupFindsPut | logprep/util/field_mapping_template.py:920-942 | a lookup of a path gives a copy of what was put there |
| TemplateMeaning.OneMoreOperand | logprep/util/field_mapping_template.py:944-954 | operands are evaluated in order, each behind the calls of those before; the first error ends it |
| TemplateMeaning.OneMoreEntry | logprep/util/field_mapping_template.py:956-971 | entries are evaluated in order, the key first, which must be a new text |
| TemplateMeaning.PartsEvaluate | logprep/util/field_mapping_template.py:899-980 | a call passes its operands in order with its keywords, lists and mappings are made of what their parts give |
| TemplateMeaning.ValidExactly | logprep/util/field_mapping_template.py:679-756 | a template is valid if and only if no part has an unknown root, a missing static path, an unknown function or arguments that do not bind |
| TemplateProofs.ParsedValueIsFresh | logprep/util/field_mapping_template.py:899-980 | directly evaluating a parsed tree gives a value that shares nothing with a context or with a template |
| TemplateProofs.FoldedCall | logprep/util/field_mapping_template.py:832-844 | a folded call becomes a constant of the template alone, whose copies are what the call would return |
| TemplateProofs.CompilationKeepsMeaning | logprep/util/field_mapping_template.py:759-896 | evaluating the compiled tree gives the value or error, and the calls that cannot be folded, of evaluating the parsed tree over both contexts |
| TemplateProofs.EvaluationSharesNothing | logprep/util/field_mapping_template.py:899-980 | the value of a compiled tree shares no list or dictionary with the runtime context, the static context or the compiled template |
| TemplateProofs.CompilationCompiles | logprep/util/field_mapping_template.py:802-845 | the compiled tree has no parsed call, no lookup into a static root and nothing left that could be folded, and skips a copy only for an operand of a function that borrows |
| TemplateProofs.NoInternalError | logprep/util/field_mapping_template.py:920-980 | evaluating a compiled tree never reaches the internal error branch |
| TemplateProofs.ValidationCoversCompilation | logprep/util/field_mapping_template.py:679-756 | a validated tree fails to compile only for a static key that is no string or a function that raises while folding |
| TemplateProofs.StaticDuplicateFails | logprep/util/field_mapping_template.py:847-873 | a mapping with a repeated static key compiles, is not folded, and fails at every evaluation, with the duplicate key unless an entry before the repetition fails |
| TemplateLoops.CompileOperation | logprep/util/field_mapping_template.py:759-896 | compilation with its accumulating loops is the specification |
| TemplateLoops.EvaluateOperation | logprep/util/field_mapping_template.py:899-980 | evaluation with its loops, calls and checks of keys is the specification |
| FieldMappingTemplate.ReadText | logprep/util/field_mapping_template.py:663-666 | the lexer and the parser together give the operation of a text, or the first error |
| FieldMappingTemplate.ConfigIsParsed | logprep/util/field_mapping_template.py:645-676 | whatever configuration parses, the result is a tree the compiler expects |
| FieldMappingTemplate.RefusedTemplates | logprep/util/field_mapping_template.py:1072-1095 | what a template is refused for before it is compiled, and in which order |
| FieldMappingTemplate.KeysAreTexts | logprep/util/field_mapping_template.py:645-676 | keys of mappings have to be texts |
| FieldMappingTemplate.TemplateKeepsMeaning | logprep/util/field_mapping_template.py:1029-1134 | a template that compiles evaluates, in every runtime context, to what its configuration means; the result is a dictionary that shares nothing with either context or the template, and no internal or type error is raised |
| FieldMappingTemplate.CompileFailures | logprep/util/field_mapping_template.py:1072-1095 | behind validation only static keys and folded functions can fail |
| TemplateEscaping.EscapingRoundTrip | logprep/util/field_mapping_template.py:1010-1014 | JSON whose texts are escaped compiles to a constant and always evaluates to that JSON |
| Breaker.StepIsSafe | logprep/ng/util/retry.py:123-142 | every step keeps permits plus sends in flight at the concurrency, and the lock with the one call inside its block |
| Breaker.SendsAreLimited | logprep/ng/util/retry.py:123-164 | in every interleaving at most `_concurrency` sends are in flight, at most one of them probes, and its call holds the lock |
| Breaker.NeverStuck | logprep/ng/util/retry.py:123-142 | while a call is under way, some call can go on or waits for its send |
| Breaker.RunsAreTimely | logprep/ng/util/retry.py:123-142 | every send that is no probe starts at a failure count of zero, every sleep is for the current positive count |
| Breaker.CountNext | logprep/ng/util/retry.py:144-164 | how one outcome changes the failed probes since the last success, plus one if the first failure was no probe |
| Breaker.FailuresAreCounted | logprep/ng/util/retry.py:149-164 | in every run the failure count is the failed probes since the last success, plus one if the first failure was no probe |
| Breaker.RunsAreResolved | logprep/ng/util/retry.py:123-164 | a call that is over ended with the outcome of its own last send, unless it was cancelled |
| Breaker.OutcomesDecide | logprep/ng/util/retry.py:144-164 | what each end of a send does to its call, over all runs: an answer is returned, a permanent error and one of the hook are raised, a transient one above the limit exhausts the retries, any other leaves the call in its loop |
| Breaker.EndingsAreOutcomes | logprep/ng/util/retry.py:144-164 | a call that is over and was not cancelled ended as its own last send says |
| Breaker.RunsAreOrderly | logprep/ng/util/retry.py:123-142 | in every run a call sleeps right before each of its probes, and ends every send before it starts another |
| Breaker.GoesStraight | logprep/ng/util/retry.py:123-142 | a call that nobody hinders sends at once while the breaker is healthy, and otherwise sleeps for the current count and probes |
| Breaker.ReturnsOwnAnswer | logprep/ng/util/retry.py:133-142 | a call returns only the answer of its own last send, which succeeded |
| Breaker.ExhaustedExactly | logprep/ng/util/retry.py:149-162 | a call ends with `RetriesExhaustedError` if and only if its last send failed transiently and left the count above the limit |
| Breaker.SleepsGrow | logprep/ng/util/retry.py:123-132 | until a success, a later sleep is for as many retries more as probes failed in between |
| Breaker.DrivenRuns | logprep/ng/util/retry.py:123-142 | a call among others is an interleaving of steps of the protocol, so that what holds of all runs holds of it |
| Breaker.TurnDecides | logprep/ng/util/retry.py:123-142 | in its turn a call is cancelled, or its send ends as the turn says, or it goes on or waits |
| Breaker.TurnsInTurn | logprep/ng/util/retry.py:123-142 | a call takes its turns one after the other, each behind what the others do, until it is over |
| Breaker.OthersActInTurn | logprep/ng/util/retry.py:123-142 | the others do everything in turn that is possible for them |
| Breaker.BlockingCircuitBreaker.Call | logprep/ng/util/retry.py:123-142 | the loop with its awaits, whatever others do at them, leaves the state that the protocol leaves |
| Breaker.BlockingCircuitBreaker.Probe | logprep/ng/util/retry.py:128-135 | the block of the lock: sleep, permit, send, and back to the loop or out of the call |
| Breaker.BlockingCircuitBreaker.Send | logprep/ng/util/retry.py:137-142 | the block of the semaphore: back to the loop if the circuit broke in the meantime, else a send |
| Breaker.BlockingCircuitBreaker.Attempt | logprep/ng/util/retry.py:144-164 | a send in flight comes back to the loop, or ends its call, or nothing more happens |
| Breaker.BlockingCircuitBreaker.Await | logprep/ng/util/retry.py:123-142 | turns pass until the call can go on; it does so only when not cancelled, and in the phase it waited in |
| Breaker.BlockingCircuitBreaker.ResumeCall | logprep/ng/util/retry.py:123-142 | what another call does from an await to the next is the step of the protocol |
| Breaker.BlockingCircuitBreaker.RecordOutcome | logprep/ng/util/retry.py:144-164 | updates the count, reports to the log and decides how the call goes on |
| Breaker.BlockingCircuitBreaker.AnswerCall | logprep/ng/util/retry.py:131-142 | an answered send leaves the blocks it is in and settles its call |
| Breaker.BlockingCircuitBreaker.CancelCall | logprep/ng/util/retry.py:127-142 | cancelling at any await releases what the call holds |
| Backoff.DurationsGrow | logprep/ng/util/retry.py:59-65 | durations are positive, non-decreasing in the retry and never above the maximum |
| Backoff.Jittered | logprep/ng/util/retry.py:59-65 | jitter stays in the upper half of the duration |
| Backoff.JitterIsDrawn | logprep/ng/util/retry.py:59-65 | durations of two draws differ by the difference of the draws, and start at half the duration |
| Backoff.TotalIsBounded | logprep/ng/util/retry.py:59-65 | the first k sleeps take at most initial * (2 ** k - 1) |
| Backoff.ClampIsUnnoticed | logprep/ng/util/retry.py:61-62 | the clamped exponent gives the documented durations for all retries if and only if the maximum is reached by then |
| Backoff.ClampIsNoticed | logprep/ng/util/retry.py:61-62 | a policy whose 66th retry comes after half of the documented duration |
| Backoff.Attempts | logprep/ng/util/retry.py:71-79 | yields 1, 2, ... up to the budget, and sleeps before every attempt but the first |
| EventFields.AddsExactly | logprep/util/helper.py:94-163 | without merging and overwriting a field is added if and only if every part of its path that is there is a dictionary and the target is absent or none |
| EventFields.AddReadsBack | logprep/util/helper.py:94-163 | an added field reads back as the added value |
| EventFields.OverwritingAdds | logprep/util/helper.py:94-163 | with overwriting a field is always added and reads back |
| EventFields.MergedExactly | logprep/util/helper.py:147-163 | which entries win in merged dictionaries, the order of merged lists and scalars, and what cannot be merged |
| EventFields.AddMerges | logprep/util/helper.py:94-163 | with merging the target holds the content where nothing or none was, else the two merged |
| EventFields.AddLeavesOthers | logprep/util/helper.py:94-163 | fields neither above nor below the target keep their values, whatever the flags |
| EventFields.PopTakesOut | logprep/util/helper.py:599-620 | popping gives the value that was there, after which it is gone and fields apart from it are kept |
| EventFields.PopOfAbsent | logprep/util/helper.py:599-620 | popping an absent field leaves the event as it was if and only if the path ends at something truthy |
| EventFields.PopDeletesOther | logprep/util/helper.py:599-620 | popping a.b from an event whose a is zero finds nothing and deletes a |
| EventFields.PopBelowExactly | logprep/util/helper.py:599-620 | popping below a value deletes it exactly if it is none, false, zero, an empty text or an empty list |
| EventFields.AddThenPop | logprep/util/helper.py:94-163 | adding and popping restores the event if and only if the field was absent and no dictionary on its path was empty |
| EventFields.BatchIsIndependent | logprep/util/helper.py:189-242 | of several fields apart from one another exactly those are reported for which there was no room at first; the others read back and nothing else changes |
| EventDicts.AddPath | logprep/util/helper.py:94-163 | on nested dictionary objects: either the field is added, or nothing is changed although dictionaries are created on the way |
| EventDicts.EnterDict | logprep/util/helper.py:74-91 | gets the dictionary at a key or puts an empty one there |
| EventDicts.AddToParent | logprep/util/helper.py:136-163 | sets, merges or refuses the target in its parent |
| EventDicts.UpdateWith | logprep/util/helper.py:147-149 | updates a dictionary object with the entries of another |
| EventDicts.PopPath | logprep/util/helper.py:599-620 | pops in place and drops what became empty on the way back |
| EventDicts.AddFields | logprep/util/helper.py:189-242 | tries every field and reports exactly those that failed at their turn |
| TimeCache.Cache.RequiresStoring | logprep/util/cache.py:17-35 | answers and updates the ordered dictionary as specified |
| TimeCache.LatestNext | logprep/util/cache.py:26-34 | how the most recent items change when an item is asked for |
| TimeCache.RecencyIsByLastQuery | logprep/util/cache.py:26-28 | the items that were asked for are in the order of the last queries for them |
| TimeCache.CacheIsRecent | logprep/util/cache.py:26-35 | the cache holds the items asked for most recently, in that order, and with each the time of its last true answer if it was kept since, else the epoch |
| TimeCache.SizeIsKept | logprep/util/cache.py:26-35 | the cache holds as many of the latest items as `max_items` says, at all times, if and only if every query is past the window, for an item that is there, or finds room |
| TimeCache.EarlyCacheOutgrows | logprep/util/cache.py:26-35 | two early queries for two items, neither said to need storing, leave two entries where one is allowed |
| TimeCache.AnswersExactly | logprep/util/cache.py:26-35 | an answer is true if and only if the window is zero, or the last true answer after which the item was kept, or else the epoch, is further back than the window |
| TimeCache.FirstAnswer | logprep/util/cache.py:26-35 | a first query is answered with true if and only if the window is zero or has passed since 1970 |
| TimeCache.LastKeptIsKept | logprep/util/cache.py:26-35 | that time is the epoch or belongs to a true answer for the item, which the cache held ever since |
| TimeCache.AnswersOnClock | logprep/util/cache.py:26-35 | while the clock does not go back, an answer is true if and only if the window is zero, the item is not there and the window has passed since the epoch, or its last true answer of all is further back than the window |
| TimeCache.TrueAnswersAreApart | logprep/util/cache.py:30-35 | two true answers for an item that stayed in the cache, or that is there while the clock does not go back, lie more than the window apart |
| TimeCache.FalseAnswersAreClose | logprep/util/cache.py:30-35 | a false answer is given within the window since the epoch, or has a true one for the same item within the window before it, after which the item was kept |
| Batching.Batcher.Next | logprep/generator/batcher.py:41-88 | one call gives the first of the batches still to come and leaves the others to come, although its generator is abandoned |
| Batching.AllBatches | logprep/generator/batcher.py:41-88 | iterating to exhaustion ends and gives all batches in order |
| Batching.EventIsSplit | logprep/generator/batcher.py:81-81 | the path is what is in front of the first comma, the message what is behind it |
| Batching.TextIsJoined | logprep/generator/batcher.py:81-85 | a batch has its path once, and then all its messages with semicolons between them |
| Batching.BatchesAreTexts | logprep/generator/batcher.py:74-91 | whatever the text based count says, the batches are the texts of groups of events |
| Batching.PathsAreApart | logprep/generator/batcher.py:74-91 | the groups of a path are those that its events alone would be cut into |
| Batching.CutConserves | logprep/generator/batcher.py:74-88 | cutting loses, repeats and moves no event |
| Batching.CutIsTight | logprep/generator/batcher.py:90-91 | the groups of a path have the size, but for a smaller last one, if and only if no group but the last has a semicolon too many and no beginning of the last one seems full |
| Batching.SizesHoldExactly | logprep/generator/batcher.py:74-91 | for the cycled input, the sizes of all batches hold if and only if the semicolons in the events of every path allow for it |
| Batching.NoSemicolonsFit | logprep/generator/batcher.py:90-91 | events without semicolons always do |
| Batching.BatchingConserves | logprep/generator/batcher.py:41-91 | for the cycled input, whatever its events: batches of one path each that keep the order of its events, and exactly as many events as asked for |
| Batching.SemicolonsCountTwice | logprep/generator/batcher.py:90-91 | two messages, one of them with a semicolon, leave in two batches instead of one, and do not meet the condition on the sizes |
| PipelineManager.Manager.SetPipelineCount | logprep/framework/pipeline_manager.py:224-250 | grows or shrinks the list to the count and counts starts and stops |
| PipelineManager.Manager.RestartFailedPipeline | logprep/framework/pipeline_manager.py:252-279 | pops and inserts in place give the specified list, counters and delay |
| PipelineManager.Manager.WaitToRestart | logprep/framework/pipeline_manager.py:281-284 | sleeps for the delay, doubles it and counts |
| PipelineManager.SetCountKeepsFirst | logprep/framework/pipeline_manager.py:224-250 | setting the count keeps the first processes as they were, and stops others or starts new ones behind them |
| PipelineManager.ReloadReplaces | logprep/framework/pipeline_manager.py:307-310 | a reload stops every process and starts as many new ones as configured |
| PipelineManager.ReloadedAreNew | logprep/framework/pipeline_manager.py:307-310 | in every history no process from before a reload is there behind it |
| PipelineManager.DeadAreCounted | logprep/framework/pipeline_manager.py:252-276 | a check counts exactly the dead processes |
| PipelineManager.OnlyDeadAreReplaced | logprep/framework/pipeline_manager.py:252-276 | a check keeps every live process and replaces every dead one by a new one of its index |
| PipelineManager.RunsAreInOrder | logprep/framework/pipeline_manager.py:233-279 | in every history the process at position i was created for index i + 1, and starts minus stops is the length of the list |
| PipelineManager.DelaysDouble | logprep/framework/pipeline_manager.py:252-284 | in every history the count is the streak of failing checks, the delay is a draw of 100 to 1000 times 2 to that count, and the sleeps of the streak add up accordingly |
| PipelineManager.Iterate | logprep/runner.py:117-133 | the supervising loop does round by round what the specification says |
| PipelineManager.RoundExactly | logprep/runner.py:117-133 | a round stops if told to, replaces every process for a new configuration, and then gives up or replaces the dead processes only |
| PipelineManager.GivesUpExactly | logprep/runner.py:117-133 | the runner gives up in a round if and only if as many rounds in a row as the limit have failed, and then the count is the limit |
| PipelineManager.ZeroGivesUpAtOnce | logprep/runner.py:117-133 | with a limit of zero and two living processes the first round gives up, with a limit of one it does not |
| PipelineManager.RunsWithinLimit | logprep/runner.py:117-133 | while it runs, no more rounds in a row have failed than the limit |
| PipelineManager.SleepsAreBounded | logprep/framework/pipeline_manager.py:281-284 | at any time the sleeps of the streak add up to r * (2 ** count - 1) for a draw r |

## Left out

- The query parser, the escaping of query strings and all regular expressions: the model starts from a tree of
  expressions, and wildcard, sigma, regex and range expressions are tests about which nothing is assumed but
  that they need their key.
- Float expressions in filters, float fields of events, and the value of float literals in templates (kept as
  their text).
- And and Or without children, and expressions on an empty key: `HasChildren` and `HasKeys` demand at least one, as
  the parser of queries makes them.
- A rule is an object with a filter and a configuration; the configuration is a text that is equal exactly where the
  fields that take part in comparing configurations are, so without the id and the description.
- Equality of expressions is that of what they say; range expressions with bounds that are equal numbers, written as
  an integer and as a float, are not told to be equal.
- The asynchronous processor of logprep/ng runs the same three loops as the one modelled; its awaits are not.
- What rules do to events, their errors and the deletion of source fields: an unknown effect that may depend on the
  rules applied before to the event.
- Signatures of template functions: `binds` says whether arguments fit. Functions are values that may depend on the
  calls made before them, and tell everything they do by their result.
- Keyword arguments of a call are its last operands, in order; reading a mapping without order is not modelled.
- TemplateRoundTrip.ExpressionRoundTrip: is about trees that the syntax can denote, so without floats, without empty
  names or path segments, and without functions or keywords spelled like a boolean or none literal.
- Positions and messages of lexer and parser errors, but for the kind and place of lexer errors.
- Reading list elements and slices by a path segment is a parameter of template lookups.
- Locks and semaphores wake any waiter; fairness and the asyncio scheduler are not modelled.
- Attributes of the backoff are real numbers, so that overflow and rounding do not occur.
- Shuffling the input of the batcher and negative event counts.
- TimeCache.AnswersOnClock: is about clocks that do not go back; AnswersExactly is about all clocks.
- Keys of dictionaries have no order in events.
- EventDicts.UpdateWith: copies the entries that it merges, where the program keeps references to them.
- `_pop_field_value`, the variant that keeps empty dictionaries.
- Real processes, queues, metrics, logging, health checks and signals: a process is an index and an id, and the
  surroundings say which are dead.
- Connectors, HTTP, credentials, getters, caches of resources, the command line, and the processors themselves.
