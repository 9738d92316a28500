# SQLTide, verified

A Dafny model of the parts of SQLTide whose correctness depends on several functions agreeing,
with proofs about all inputs, all runs and all histories.

- **SQL text** (`Chars` to `Headers`): the lexical scanners, and on top of them the edits that keep
  every other character: reference substitution, predicate conjunction, CTE merging, relation
  renaming, and the splitting into headers and projections. `Lexing` defines one lexical step and
  the chain of token boundaries; every scanner walks that chain, and `Agreement` carries the chain
  from one text to another, which is how edited texts are scanned again.
- **MODEL headers** (`HeaderTokens`, `HeaderParser`, `HeaderRoundTrip`): tokenizer, parser and
  the written forms, with a printer that the parser undoes.
- **Relation resolution** (`Trees` to `RelationCache`): JSON-shaped trees, the slot walk, the
  rewriting walk, qualification under CTE scopes, and the cache of resolved relations. The
  position of a node in FROM clauses and join lists is a `Role`; both walks are compared with
  the references that roles define.
- **Producer** (`Orders`, `ProducerMachine`, `ProducerWork`, `Producer`): checkpoint, publish and
  crash as a transition system, what a tick, the seeding and a stream make, and the producer loop
  as a sequence of the system's steps that makes exactly that.
- **Build cancellation** (`BuildProcess`, `BuildCancellation`, `BuildQueries`): requests, worker
  threads, reader threads and child processes interleaving, one locked section at a time.
- **Accounts** (`Accounts` to `AuthenticationCache`): the control store, histories of its
  operations, what a served identity owes to them, and the authentication cache in front of it.
- **Login limiter** and **project authorization** (`LoginLimiter`, `Authorization`).

Loops and objects of the sources are methods and classes; each is proved equal to a function or
transition about which the theorems are stated. Trees, tables and token lists that the sources
change in place through an exclusive reference are values that methods return or reassign.

## Where the code falls short of its descriptions

- Appending a predicate is not found again when the template leaves a parenthesis open, and does
  not enclose a WHERE text that stripping leaves ending in a line comment or unbalanced
  (`PredicateRescan.AppendConjoinsExactly` has the exact condition,
  `PredicateRescan.CommentHidesThePredicate` an input).
- Merging CTEs is not undone by extraction when the first new name reads as RECURSIVE, or when a
  template without WITH starts with a comma (`CteRoundTrip.MergeOfKeyword`,
  `CteRoundTrip.MergeWithoutWith`). The result may even extract, to a CTE named AS that nobody
  wrote (`CteRoundTrip.KeywordIsReadOn`, `CteRoundTrip.RecursiveNameIsLost`).
- A substituted target may spell a reference together with the text after it, although no target
  is named like a reference function (`ReferenceRescan.GluedTargetMakesReference`;
  `ReferenceJoints.RescanFindsNothing` has the exact condition on text and targets).
- A bounded token is missed when an occurrence that is not bounded overlaps it
  (`TemplateRelations.OverlapHidesAnOccurrence`; `TemplateRelations.ReplacedExactly` says for which
  tokens that can happen).
- A pipeline request may be allowed that the capability summary does not list, and a listed
  permission refused for the project (`Authorization.PipelinesDisagree` and
  `Authorization.ListedForTargetsOnly` say exactly when).

## Model

| member | source | states |
|---|---|---|
| Chars.StripSplits | crates/sqltide-sqltext/src/python_text.rs:33-45 | stripping removes exactly white space on both sides: the text is padding, result, padding, and the result neither starts nor ends with white space |
| Chars.StripPadded | crates/sqltide-sqltext/src/python_text.rs:33-45 | white space put around a stripped text is stripped again |
| Chars.UpperKeeps | crates/sqltide-sqltext/src/python_text.rs:47-53 | upper-casing keeps every ASCII character that is no lower-case letter |
| Chars.PlainKeywordLength | crates/sqltide-sqltext/src/python_text.rs:47-53 | only a text of the same length upper-cases to a keyword such as WITH or WHERE, whatever its characters |
| Lexing.LineEndIsFirst | crates/sqltide-sqltext/src/sql_scan/primitives.rs:150-160 | no line feed lies inside a line comment |
| Lexing.BlockEndIsFirst | crates/sqltide-sqltext/src/sql_scan/primitives.rs:161-175 | a block comment with a `*/` anywhere after its start is closed, and ends no later than behind it |
| Lexing.SkipQuotedText | crates/sqltide-sqltext/src/sql_scan/primitives.rs:125-148 | the loop is the quoted-text step: doubled quotes and backslash pairs are skipped, and an unclosed quote fails |
| Lexing.SkipLineComment | crates/sqltide-sqltext/src/sql_scan/primitives.rs:152-160 | the loop finds the end of a line comment |
| Lexing.SkipBlockComment | crates/sqltide-sqltext/src/sql_scan/primitives.rs:161-175 | the loop finds the end of a block comment or its absence |
| Lexing.SkipNonCode | crates/sqltide-sqltext/src/sql_scan/primitives.rs:178-189 | one lexical step: code, something to skip with its end, or an unclosed lexeme |
| Lexing.WalkTransitive | crates/sqltide-sqltext/src/sql_scan/primitives.rs:178-189 | token boundaries compose: a boundary of the chain that starts at a boundary is a boundary of the whole chain |
| Lexing.WalkThrough | crates/sqltide-sqltext/src/sql_scan/primitives.rs:178-189 | two boundaries of one chain lie on one another's chain, so all scanners that start at a boundary agree where code is |
| Agreement.NonCodeAgrees | crates/sqltide-sqltext/src/sql_scan/primitives.rs:178-189 | where two texts agree up to the end of a lexeme, the lexical step of one is the step of the other, shifted |
| Agreement.WalkAgrees | crates/sqltide-sqltext/src/sql_scan/primitives.rs:178-189 | token boundaries are carried from one text to another that agrees with it |
| Scanners.FindMatchingParenthesis | crates/sqltide-sqltext/src/sql_scan/primitives.rs:196-226 | the loop is the depth-counting scan |
| Scanners.MatchIsFirstClose | crates/sqltide-sqltext/src/sql_scan/primitives.rs:196-226 | the result is the first boundary at which the code-only depth returns to zero; it fails exactly when no such boundary comes before the end or an unclosed quote or comment |
| Scanners.FindNextUnquotedCharacter | crates/sqltide-sqltext/src/sql_scan/primitives.rs:233-250 | the loop is the scan for a character in code |
| Scanners.FindCodeIsLeast | crates/sqltide-sqltext/src/sql_scan/primitives.rs:233-250 | it returns the least code occurrence of the character, and none exactly when the chain reaches the end without one |
| Scanners.SkipTrivia | crates/sqltide-sqltext/src/sql_scan/primitives.rs:257-271 | the loop is the skipping of white space and comments |
| Scanners.TriviaIsMaximal | crates/sqltide-sqltext/src/sql_scan/primitives.rs:257-271 | skipping goes through white space and comments only and stops at the first boundary that is neither |
| Scanners.NormalizedStatementSql | crates/sqltide-sqltext/src/sql_scan/primitives.rs:293-317 | the method keeps the last significant character while scanning and removes it if it is a semicolon |
| Scanners.NormalizedDeletesTerminal | crates/sqltide-sqltext/src/sql_scan/primitives.rs:293-317 | a code semicolon after which only white space and comments follow is deleted, and without one the text is unchanged; it fails only on an unclosed lexeme |
| Embedding.EmbeddedMatch | crates/sqltide-sqltext/src/sql_scan/primitives.rs:196-226 | a balanced, lexically closed text in parentheses is matched as a whole wherever it is put |
| Embedding.EmbeddedExactly | crates/sqltide-sqltext/src/sql_scan/primitives.rs:196-226 | and only such a text is |
| Embedding.MatchThrough | crates/sqltide-sqltext/src/sql_scan/primitives.rs:196-226 | the scan for a closing parenthesis may be resumed at any boundary on its way |
| Predicates.OuterPredicatePositions | crates/sqltide-sqltext/src/sql_scan/templates.rs:106-147 | the loop finds the end of the first WHERE at depth zero and the first boundary keyword at depth zero after it |
| Predicates.AppendTemplatePredicate | crates/sqltide-sqltext/src/sql_scan/templates.rs:84-109 | the method builds the edited text from these two positions, in its three layouts, or fails on an unclosed lexeme |
| PredicateRescan.AppendToClause | crates/sqltide-sqltext/src/sql_scan/templates.rs:84-109 | with a WHERE clause whose stripped text is balanced and lexically closed, re-scanning finds exactly `(old) AND (new)` as the clause, the same prefix before it and the same text from the boundary keyword on |
| PredicateRescan.AppendBeforeBoundary | crates/sqltide-sqltext/src/sql_scan/templates.rs:84-109 | without one but before a boundary keyword, re-scanning finds exactly the new predicate as the clause, and both sides are kept |
| PredicateRescan.AppendAtEnd | crates/sqltide-sqltext/src/sql_scan/templates.rs:84-109 | with neither, the clause is written at the end; it is found again if and only if the template leaves no parenthesis open |
| PredicateRescan.ClauseEndsAtKeyword | crates/sqltide-sqltext/src/sql_scan/templates.rs:11-24 | a whole word on a new line at depth zero after a WHERE clause ends the clause, and leaves it the clause it was, if it is one of the twelve keywords in any case; any other word is read over |
| PredicateRescan.AppendConjoins | crates/sqltide-sqltext/src/sql_scan/templates.rs:84-147 | the outer clause of the result is the old one and the new predicate, the remainder is kept, and the result can be appended to again |
| PredicateRescan.AppendAllConjoins | crates/sqltide-sqltext/src/sql_scan/templates.rs:84-147 | any number of appends conjoin in order |
| PredicateRescan.AppendConjoinsExactly | crates/sqltide-sqltext/src/sql_scan/templates.rs:84-147 | on every template that scans: the old clause is enclosed as a whole, the re-scanned clause is its conjunction with the new predicate, and the remainder is kept, if and only if the stripped WHERE text is balanced and lexically closed, or, without WHERE and boundary keyword, no parenthesis is left open |
| PredicateRescan.CommentHidesThePredicate | crates/sqltide-sqltext/src/sql_scan/templates.rs:98-108 | with `WHERE a -- note` on a line before `ORDER BY b`, stripping drops the line feed and the new predicate is commented out |
| PredicateRescan.EmbeddableConjunction | crates/sqltide-sqltext/src/sql_scan/templates.rs:104-108 | the conjunction the edit writes is again balanced and lexically closed |
| TemplateRelations.ReplaceBoundedToken | crates/sqltide-sqltext/src/sql_scan/templates.rs:53-77 | the loop replaces the sites it visits, keeps every other character and visits them in order |
| TemplateRelations.RewriteTemplateRelations | crates/sqltide-sqltext/src/sql_scan/templates.rs:34-51 | the rewrites are applied one after the other, each with its own token and replacement |
| TemplateRelations.SitesAreBounded | crates/sqltide-sqltext/src/sql_scan/templates.rs:53-77 | only bounded occurrences are replaced, from left to right and without overlap |
| TemplateRelations.ReplacedExactly | crates/sqltide-sqltext/src/sql_scan/templates.rs:53-77 | in every text exactly the bounded occurrences are replaced, if and only if the token does not overlap itself right behind a character that bounds |
| TemplateRelations.OverlapHidesAnOccurrence | crates/sqltide-sqltext/src/sql_scan/templates.rs:53-77 | such a token: the first `x.x` of `xx.x.x` hides the second |
| TemplateRelations.HiddenIn | crates/sqltide-sqltext/src/sql_scan/templates.rs:53-77 | for every other token, the token behind the beginning of itself has a bounded occurrence that is missed |
| Ctes.ReadOne | crates/sqltide-sqltext/src/sql_scan/ctes.rs:79-124 | one CTE: its name, its parenthesised query, and the error cases |
| Ctes.ExtractTopLevelCtes | crates/sqltide-sqltext/src/sql_scan/ctes.rs:34-77 | the loop reads the CTEs up to the first one not followed by a comma, refuses repeated names, and returns the trailing statement |
| CteRoundTrip.CollectAgrees | crates/sqltide-sqltext/src/sql_scan/ctes.rs:34-61 | reading the same list later in a longer text gives the same CTEs, shifted, unless one repeats a name seen before; then it fails |
| CteRoundTrip.CollectRendered | crates/sqltide-sqltext/src/sql_scan/templates.rs:154-178 | the rendered list of named queries is read back in order, whatever follows it |
| CteRoundTrip.MergeIntoWith | crates/sqltide-sqltext/src/sql_scan/templates.rs:154-178 | extracting from the merged text gives the new CTEs, then the template's own, and the same trailing statement; it succeeds if and only if no new name repeats one of the template's |
| CteRoundTrip.MergeOfKeyword | crates/sqltide-sqltext/src/sql_scan/templates.rs:168-177 | in a template that extracts and does not say RECURSIVE itself, a first name that reads as RECURSIVE always makes the merged text unreadable |
| CteRoundTrip.MergeWithoutWith | crates/sqltide-sqltext/src/sql_scan/templates.rs:165-170 | a template without WITH yields just the new CTEs and itself as trailing statement, if and only if it does not start with a comma and the first name does not read as RECURSIVE |
| CteRoundTrip.KeywordIsReadOn | crates/sqltide-sqltext/src/sql_scan/ctes.rs:63-124 | when it does, the merged text extracts only if there is one new CTE and the template reads as `AS (...)`; then, unless what follows fails to extract or has a CTE of that name, it extracts without error to a CTE named AS with the template's query |
| CteRoundTrip.RecursiveNameIsLost | crates/sqltide-sqltext/src/sql_scan/templates.rs:168-170 | such a template and CTE: `AS (select 1) select 2` and `recursive` |
| References.ExtractReferences | crates/sqltide-sqltext/src/sql_scan/references.rs:32-48 | the loop collects the references that start on code boundaries |
| References.ReadArgumentText | crates/sqltide-sqltext/src/sql_scan/references.rs:138-158 | each comment of an argument becomes one space, quoted text is kept |
| References.SplitArguments | crates/sqltide-sqltext/src/sql_scan/references.rs:104-136 | arguments are separated at code commas at depth zero |
| References.Unquote | crates/sqltide-sqltext/src/sql_scan/references.rs:184-202 | doubled quotes and escaped characters become one character |
| ReferenceSpans.SpansAreOrdered | crates/sqltide-sqltext/src/sql_scan/references.rs:32-102 | extracted spans are increasing, disjoint and on code boundaries |
| ReferenceSpans.Substituted | crates/sqltide-sqlanalysis/src/relations.rs:202-223 | on such spans the loop, whose clamps never bind, replaces each span by its rendered relation and fails when one cannot be rendered |
| ReferenceSpans.MovedHoldTexts | crates/sqltide-sqlanalysis/src/relations.rs:202-223 | the moved spans of the result hold the texts that were put there |
| ReferenceSpans.SpliceIsReversible | crates/sqltide-sqlanalysis/src/relations.rs:202-223 | putting the original spans back restores the authored text: nothing else was changed, moved or lost |
| ReferenceNames.ReferenceNameRoundTrip | crates/sqltide-sqltext/src/sql_scan/references.rs:50-202 | a reference written with its name quoted and escaped, in any of the three quotes, is extracted alone, over the whole text and with that name; an empty name is refused |
| ReferenceTypes.ReferenceTypeRoundTrip | crates/sqltide-sqltext/src/sql_scan/references.rs:50-236 | a reference written with a quoted name and `ref_type=` with a quoted word is extracted alone, over the whole text, with its name and the type the word means; any other word is refused, as is a type of a source |
| ReferenceTypes.CallIsIdentified | crates/sqltide-sqlanalysis/src/relations.rs:344-377 | a call in a parsed tree is identified by its function, its name and the type its second argument means, none for any other word and for a source |
| ReferenceRescan.RescanFindsOnlyJoints | crates/sqltide-sqltext/src/sql_scan/references.rs:32-102 | after substituting dotted identifiers no reference is found again if and only if nowhere in the result the last part of a target, together with the text after it, spells a call |
| ReferenceJoints.JointsAreSpelled | crates/sqltide-sqltext/src/sql_scan/references.rs:32-102 | what is spelled there is told from the authored text and the targets: a last part behind a dot or behind text, the identifier characters that follow the reference or the next targets that adjoin it, and a parenthesis |
| ReferenceJoints.RescanFindsNothing | crates/sqltide-sqltext/src/sql_scan/references.rs:32-102 | no reference is found again if and only if, in the authored text and the targets, nothing of this kind is spelled |
| ReferenceRescan.RescanOfSeparated | crates/sqltide-sqltext/src/sql_scan/references.rs:32-102 | sufficient on the authored text: no target ends in a reference function's name, and no identifier character follows a reference |
| ReferenceRescan.GluedTargetMakesReference | crates/sqltide-sqltext/src/sql_scan/references.rs:32-102 | the target `_` in `__ref(a)_ref(b)` makes a new reference |
| Projections.OuterProjectionSpans | crates/sqltide-sqltext/src/sql_scan/projections.rs:17-57 | the loop finds the outer SELECT list and hands it to the splitting |
| Projections.SplitProjectionSpans | crates/sqltide-sqltext/src/sql_scan/projections.rs:82-105 | the loop cuts the list at its separators and trims each span |
| Projections.TrimmedSpan | crates/sqltide-sqltext/src/sql_scan/projections.rs:192-200 | the loops trim white space only, on both sides |
| Projections.CommasAreExact | crates/sqltide-sqltext/src/sql_scan/projections.rs:82-105 | the separators are exactly the code commas at depth zero |
| Projections.SpansTileTheList | crates/sqltide-sqltext/src/sql_scan/projections.rs:17-105 | there is one span more than separators, in order and disjoint, and only white space lies between a span and its separators |
| Headers.CollectMarkers | crates/sqltide-sqltext/src/sql_scan/headers.rs:23-78 | the loop collects the header markers in code |
| Headers.ReadBlock | crates/sqltide-sqltext/src/sql_scan/headers.rs:40-48 | one block: the parentheses are matched a second time and give the header and the body |
| Headers.SplitHeaderBlocks | crates/sqltide-sqltext/src/sql_scan/headers.rs:23-51 | the second loop builds the blocks from the markers |
| Headers.MarkersAreOrdered | crates/sqltide-sqltext/src/sql_scan/headers.rs:23-78 | markers are ordered, each ends before the next begins, and each is a header at the start of its line |
| Headers.HeadersTileTheText | crates/sqltide-sqltext/src/sql_scan/headers.rs:23-51 | once markers are found the second parenthesis pass finds the same close and cannot fail, and the headers and bodies tile the text from the first header on |
| HeaderTokens.WordEnd | crates/sqltide-sqltext/src/model_header/tokenizer.rs:89-109 | the loop finds the end of a bare word or the quote that must not be inside it |
| HeaderTokens.ReadQuoted | crates/sqltide-sqltext/src/model_header/tokenizer.rs:111-135 | the loop reads a string with its escapes, or fails on an unterminated one |
| HeaderTokens.Tokenize | crates/sqltide-sqltext/src/model_header/tokenizer.rs:39-87 | the loop produces the tokens with their positions, or the first error |
| HeaderTokens.TokensAreTerminated | crates/sqltide-sqltext/src/model_header/tokenizer.rs:39-87 | exactly the last token is the end marker |
| HeaderParser.InsertEntry | crates/sqltide-sqltext/src/model_header/value.rs:50-59 | the loop replaces the entry with the key, or appends one |
| HeaderParser.InsertedAt | crates/sqltide-sqltext/src/model_header/value.rs:50-59 | a new key goes to the end, a known key keeps its place and takes the new value |
| HeaderParser.Parser.constructor | crates/sqltide-sqltext/src/model_header/parser.rs:14-32 | the cursor starts at the first token at depth zero |
| HeaderParser.Parser.Peek | crates/sqltide-sqltext/src/model_header/parser.rs:175-178 | the token at the cursor always exists, and only the last one is the end marker |
| HeaderParser.Parser.MatchSymbol | crates/sqltide-sqltext/src/model_header/parser.rs:146-152 | the cursor moves exactly when the symbol is there |
| HeaderParser.Parser.ConsumeKey | crates/sqltide-sqltext/src/model_header/parser.rs:124-132 | a word is consumed, anything else is an error that leaves the cursor |
| HeaderParser.Parser.ParseMap | crates/sqltide-sqltext/src/model_header/parser.rs:35-63 | terminates on every input, ends on the grammar's result with the cursor behind it, never passes the end marker, and restores the depth also on errors |
| HeaderParser.Parser.ParseValue | crates/sqltide-sqltext/src/model_header/parser.rs:65-93 | the same for one value, with the nesting limit; `word (..)` is a map of the word to the map in the parentheses |
| HeaderParser.Parser.ParseList | crates/sqltide-sqltext/src/model_header/parser.rs:95-122 | the same for a list |
| HeaderParser.Parse | crates/sqltide-sqltext/src/model_header/parser.rs:14-32 | the whole header: no tokens give no entries, and nothing may follow the entries; what the entries are is the round trip below |
| HeaderRoundTrip.ReadValue | crates/sqltide-sqltext/src/model_header/parser.rs:65-122 | the tokens of a written value are parsed to the value it means when depth and nesting stay within 128, and to the nesting error otherwise; a map below a word may be written `(word (..))` or `word (..)`, which nests once less, at every node |
| HeaderRoundTrip.TokenizeValue | crates/sqltide-sqltext/src/model_header/tokenizer.rs:39-135 | a written value is tokenized to its tokens at their positions, whatever its strings contain and in either quote |
| HeaderRoundTrip.HeaderIsReadBack | crates/sqltide-sqltext/src/model_header/parser.rs:14-178 | writing any header with distinct bare-word keys, with bare words, strings, lists, maps and calls chosen per node, and parsing it gives the entries meant if it nests at most 128 deep, and the nesting error otherwise |
| HeaderRoundTrip.ReadCall | crates/sqltide-sqltext/src/model_header/parser.rs:74-86 | a written call is read as the map of its word to the map of its fields, and counts as one level of nesting |
| HeaderRoundTrip.HeaderCanBeWritten | crates/sqltide-sqltext/src/model_header/value.rs:10-59 | every header whose numbers are numbers and whose maps hold distinct bare words is the meaning of some written one |
| Trees.GetOfPut | crates/sqltide-sqlanalysis/src/relations.rs:476-481 | inserting at a key changes what is looked up under that key and nothing else |
| Trees.CopiedScope | crates/sqltide-sqlanalysis/src/tree.rs:141-165 | trees that agree along the keys of CTE declarations declare the same names |
| Qualification.QualifyRelations | crates/sqltide-sqlanalysis/src/relations.rs:462-501 | the walk puts each table that is not qualified and names no visible CTE into the schema named by the placeholder, keeps the schema of every other table, keeps all tables and their names, and changes nothing but schemas of tables |
| Qualification.TablesArePlaced | crates/sqltide-sqlanalysis/src/relations.rs:462-501 | a collector of the tables the walk reaches finds the same tables before and after, in order: the bare ones with an unquoted schema identifier that is the placeholder, the others with the schema they had |
| Qualification.OnlySchemasChange | crates/sqltide-sqlanalysis/src/relations.rs:462-501 | with the schemas of its tables cleared, the qualified tree is the original |
| Qualification.PlaceholdersShow | crates/sqltide-sqlanalysis/src/relations.rs:462-501 | two placeholders give different trees if and only if there is a table to qualify |
| Qualification.QualifiedSites | crates/sqltide-sqlanalysis/src/relations.rs:462-501 | a tree needs no qualification if and only if no table the walk reaches is bare |
| Qualification.UnchangedExactly | crates/sqltide-sqlanalysis/src/relations.rs:462-501 | a tree is left unchanged if and only if every table reached is qualified or names a visible CTE |
| Qualification.QualifiedTwice | crates/sqltide-sqlanalysis/src/relations.rs:462-501 | on every tree, qualifying a second time changes nothing, whatever the second placeholder |
| Qualification.CapturesExactly | crates/sqltide-sqlanalysis/src/relations.rs:462-501 | making more CTE names visible changes the result if and only if one of them is the name of a table that would be qualified |
| Relations.RoleSplits | crates/sqltide-sqlanalysis/src/relations.rs:259-309 | the references of a node are those its position in a FROM clause or join list gives it and those of the same node elsewhere |
| Facts.TreeFacts.RecordReferenceSlots | crates/sqltide-sqlanalysis/src/facts.rs:108-136 | the FROM and JOIN positions of one object are recorded in order |
| Facts.TreeFacts.Scan | crates/sqltide-sqlanalysis/src/facts.rs:49-106 | the traversal records all relation positions outside table nodes, those of children first, and the first raw relation |
| Facts.RawAbsent | crates/sqltide-sqlanalysis/src/facts.rs:49-106 | a tree in which no raw relation is found holds no table that qualification would change |
| Facts.RawAbsentKeeps | crates/sqltide-sqlanalysis/src/relations.rs:462-501 | such a tree is left unchanged by qualification |
| WalksAgree.IdentityByRole | crates/sqltide-sqlanalysis/src/relations.rs:116-143 | following the aliases of a relation position finds the reference that the position gives its node |
| WalksAgree.SlotsHold | crates/sqltide-sqlanalysis/src/facts.rs:49-136 | the references read at the recorded positions below any node are those a rewrite of the node gathers |
| WalksAgree.WalksFindTheSame | crates/sqltide-sqlanalysis/src/relations.rs:152-199 | the slot walk and the rewriting walk gather the same multiset of references of every tree in which no reference call and no table node holds a reference |
| RelationRewrite.NothingToRewrite | crates/sqltide-sqlanalysis/src/relations.rs:259-309 | a tree in which no reference is gathered is not changed |
| RelationRewrite.QualificationCommutes | crates/sqltide-sqlanalysis/src/relations.rs:259-342 | at any node, position and scope: qualifying the rewritten tree is rewriting with targets qualified on their own, when tables hold no references, none but the references' targets are bare, and no visible CTE captures a table of a target |
| RelationRewrite.ResolutionMayQualifyTargets | crates/sqltide-sqlanalysis/src/relations.rs:95-113 | the same for a whole query without raw relations: why per-target templates may be substituted |
| RewriteWalk.ReplaceExpression | crates/sqltide-sqlanalysis/src/relations.rs:312-342 | one relation expression: replaced inside its aliases, left alone, or failed for want of a target |
| RewriteWalk.ReplaceOwnPositions | crates/sqltide-sqlanalysis/src/relations.rs:268-292 | the loops over FROM expressions and joins replace exactly the references of these positions and report them |
| RewriteWalk.RewriteTree | crates/sqltide-sqlanalysis/src/relations.rs:259-309 | the walk, which goes on in what it has put in, ends; it succeeds if and only if every reference has a target, gives the tree with each replaced, and reports each once |
| RewriteWalk.GatheredAfterwards | crates/sqltide-sqlanalysis/src/relations.rs:259-309 | replacing a node's own positions takes exactly their references away |
| RelationCaches.RelationCache.constructor | crates/sqltide-sqlanalysis/src/relations.rs:52-58 | an empty cache with both counters at zero |
| RelationCaches.RelationCache.Relation | crates/sqltide-sqlanalysis/src/relations.rs:61-82 | a target is parsed once if it parses and every time if it does not; what is kept is what parsing gives |
| RelationCaches.RelationCache.Canonical | crates/sqltide-sqlanalysis/src/relations.rs:84-93 | the answer is the uncached one, and a kept form costs no parse and no generation |
| RelationCaches.RelationCache.Template | crates/sqltide-sqlanalysis/src/relations.rs:95-113 | the same for the template of a target and placeholder |
| RelationCaches.RelationCache.ReferenceTarget | crates/sqltide-sqlanalysis/src/relations.rs:116-143 | below the aliases of a relation expression, no reference is fine, and a reference without target or with an invalid one is an error |
| RelationCaches.RelationCache.ResolveSlots | crates/sqltide-sqlanalysis/src/relations.rs:166-180 | all positions are looked at, the first failure is kept, and otherwise the references of all positions are returned |
| RelationCaches.RelationCache.Substituted | crates/sqltide-sqlanalysis/src/relations.rs:202-223 | the loop with the cache gives the substitution with the uncached forms |
| RelationCaches.RelationCache.Resolve | crates/sqltide-sqlanalysis/src/relations.rs:152-199 | the answer does not depend on what was resolved before. A result has the placeholder in neither the authored nor the canonical SQL; the canonical SQL holds, at the moved span of each reference, the generated parsed relation of its target, the template holds the generated qualified relation there; putting the authored spans back restores the authored text from both; and the scanned references are those at the tree's relation positions |
| RelationCaches.SubstitutionHolds | crates/sqltide-sqlanalysis/src/relations.rs:186-223 | a substitution that succeeds holds the target's generated relation at each moved span, qualified or not, and is the authored text everywhere else |
| RelationCaches.SortingAscends | crates/sqltide-sqlanalysis/src/relations.rs:182-183 | ordering the references rearranges them by their starts |
| RelationCaches.OrderedIsSorted | crates/sqltide-sqlanalysis/src/relations.rs:182-183 | references as the scanner gives them are in order already |
| RelationCaches.ResolvesLikeTheRewrite | crates/sqltide-sqlanalysis/src/relations.rs:152-199 | resolution passes its checks if and only if the tree rewrite succeeds and gathers the references the scanner found in the text |
| Orders.HistoriesAreLifecycles | examples/orders_demo/producer/fake_orders_producer.py:18-23 | the events of one order are a creation followed by one allowed transition after another |
| Orders.FirstSeenIsPrefix | examples/orders_demo/producer/fake_orders_producer.py:235-252 | what a log in order shows of an order for the first time is the beginning of its events |
| ProducerMachine.StepKeepsInvariant | examples/orders_demo/producer/fake_orders_producer.py:235-252 | every step, crash and delivery included, keeps the protocol's invariant, and the log and the saved history only grow |
| ProducerMachine.SeenDelivered | examples/orders_demo/producer/fake_orders_producer.py:231-252 | delivering an event before waiting events of other orders keeps each order's events in order |
| ProducerMachine.ResentEventsAreIdentical | examples/orders_demo/producer/fake_orders_producer.py:235-252 | in every run with crashes anywhere, two published events with the same id are identical |
| ProducerMachine.NoCheckpointedEventIsLost | examples/orders_demo/producer/fake_orders_producer.py:235-252 | in every run, an event pending in a checkpoint is pending or published at every later time |
| ProducerMachine.FirstOccurrencesFollowTransitions | examples/orders_demo/producer/fake_orders_producer.py:296-357 | in every run, the first occurrences of an order's events follow the transition graph from its creation |
| Producer.Producer.CreateOrder | examples/orders_demo/producer/fake_orders_producer.py:115-125 | a new order has an unused number and no event yet |
| Producer.Producer.NextEventId | examples/orders_demo/producer/fake_orders_producer.py:128-131 | the id is higher than that of every event made before, so no event id is used twice |
| Producer.Producer.Append | examples/orders_demo/producer/fake_orders_producer.py:128-131 | an event is made with the next number, appended to the pending ones, and continues the history |
| Producer.Producer.TakeNewOrders | examples/orders_demo/producer/fake_orders_producer.py:313-324 | exactly `count` orders join the active list, with consecutive new numbers, status created and two to six ticks to wait, and exactly their creation events are made, in order, at the given time |
| Producer.Producer.AdvanceOrder | examples/orders_demo/producer/fake_orders_producer.py:212-219 | the next status is one of the allowed ones, and there is none exactly for a final status |
| Producer.Producer.AgeOrders | examples/orders_demo/producer/fake_orders_producer.py:326-350 | each order not yet due stays with one tick fewer; a due one with a transition makes exactly one event, of an allowed status, at the given time, and stays with new ticks if and only if that status is not final; a due one without a transition is dropped; events are made in the order of the orders |
| ProducerWork.AgedEach | examples/orders_demo/producer/fake_orders_producer.py:326-350 | told of each order: no event and one tick fewer if not due; otherwise exactly one event if it has a transition, and it is still there if and only if the new status is not final |
| ProducerWork.AgedAbsent | examples/orders_demo/producer/fake_orders_producer.py:326-350 | ageing makes no event about an order that is not in the list, and puts none there |
| Producer.Producer.Tick | examples/orders_demo/producer/fake_orders_producer.py:309-350 | a tick is one step of work of the protocol: it takes the new orders and then ages all, makes exactly the events of both, and leaves file, topic and client as they were |
| Producer.Producer.SeedHistory | examples/orders_demo/producer/fake_orders_producer.py:255-293 | so is the seeding, which makes the events of 48 new orders in order, each its creation and the statuses its index calls for at their times, and reports their number |
| Producer.Producer.SeedOrder | examples/orders_demo/producer/fake_orders_producer.py:263-291 | one seeded order: a creation and then its statuses, five minutes apart, with consecutive event numbers |
| Producer.Producer.SaveState | examples/orders_demo/producer/fake_orders_producer.py:184-209 | writing the checkpoint is the protocol's step |
| Producer.Producer.FlushAndClear | examples/orders_demo/producer/fake_orders_producer.py:248-251 | flushing waits for all deliveries before the pending events are cleared in memory |
| Producer.Producer.PublishPending | examples/orders_demo/producer/fake_orders_producer.py:235-252 | checkpoint, sends, deliveries, flush and second checkpoint are steps of the protocol; what was in flight and then all that was pending is sent in order, nothing is left pending, and if anything was pending nothing is left in flight |
| Producer.Producer.CrashAndRestart | examples/orders_demo/producer/fake_orders_producer.py:147-181 | at any point, also within a tick, a crash and restart is the crash step of the protocol and continues from the checkpoint |
| Producer.Producer.RunStream | examples/orders_demo/producer/fake_orders_producer.py:296-357 | the worlds the stream goes through, for any number of ticks, are a run of the protocol; it publishes what was pending and then exactly the events of the seeding, if that was not done, and of that many ticks, each going on with the orders the one before left; the order number grows by 48, if seeded, and by the orders of all ticks |
| ProducerWork.StreamCreates | examples/orders_demo/producer/fake_orders_producer.py:309-350 | the ticks of a stream make exactly as many creation events as orders were asked for |
| Producer.CrashForgetsWork | examples/orders_demo/producer/fake_orders_producer.py:147-209 | a crash in the middle of a tick is a crash before the tick: work in memory is all that is lost |
| BuildProcess.BuildProcessManager.StartLocked | src/sqltide/dev_server/classes/build_process.py:100-146 | a start is refused while the child or the cancellation thread lives, otherwise it resets every field |
| BuildProcess.BuildProcessManager.CancelLocked | src/sqltide/dev_server/classes/build_process.py:185-194 | a repeated cancellation changes nothing; a first one of an owned child notes the active query |
| BuildProcess.BuildProcessManager.InterimLocked | src/sqltide/dev_server/classes/build_process.py:248-253 | the interim status is written by the current invocation's thread only |
| BuildProcess.BuildProcessManager.FinishLocked | src/sqltide/dev_server/classes/build_process.py:266-272 | so is the final status with the exit code |
| BuildProcess.BuildProcessManager.OutcomeLostLocked | src/sqltide/dev_server/classes/build_process.py:289-292 | a lost outcome is a failed cancellation |
| BuildProcess.BuildProcessManager.ClearThreadLocked | src/sqltide/dev_server/classes/build_process.py:293-295 | a thread clears itself only |
| BuildProcess.BuildProcessManager.ReadEventLocked | src/sqltide/dev_server/classes/build_process.py:324-334 | an output line changes the fields of its own invocation only |
| BuildProcess.BuildProcessManager.OutputEndedLocked | src/sqltide/dev_server/classes/build_process.py:335-340 | the same for the end of the output |
| BuildCancellation.StepKeepsInvariant | src/sqltide/dev_server/classes/build_process.py:74-345 | every atomic part of a request, every thread step and every exit keeps the protocol's invariant |
| BuildCancellation.AtMostOneChild | src/sqltide/dev_server/classes/build_process.py:100-105 | in every run, at most one child is live, and it is the manager's |
| BuildCancellation.MovingWorkerIsCurrent | src/sqltide/dev_server/classes/build_process.py:248-272 | in every run, a cancellation thread that has not ended works on the current build |
| BuildCancellation.EarlierThreadsChangeNothing | src/sqltide/dev_server/classes/build_process.py:212-345 | in every run, a step of a thread of an earlier invocation leaves the manager unchanged |
| BuildCancellation.CancelledIsTrue | src/sqltide/dev_server/classes/build_process.py:212-272 | in every run, status `cancelled` means the child has exited and the query active at the request was confirmed terminated |
| BuildQueries.NotedQueryIsRunning | src/sqltide/dev_server/classes/build_process.py:317-334 | in every run, the query noted for the current build is that of the statement its output last reported as started and not yet as completed |
| BuildQueries.CancellationNotesTheQuery | src/sqltide/dev_server/classes/build_process.py:182-194 | in every run, the query noted for a cancellation is the one the build was at when the cancellation was accepted |
| BuildQueries.CancelledStoppedTheStatement | src/sqltide/dev_server/classes/build_process.py:182-272 | in every run, status `cancelled` means that the statement the build was at when its cancellation was accepted, if any, was confirmed terminated |
| BuildCancellation.FailedNeverBecomesCancelled | src/sqltide/dev_server/classes/build_process.py:212-295 | in every run, once an invocation's cancellation failed it stays failed for that invocation |
| ControlStores.ControlStore.AddUser | src/sqltide/auth/classes/control_store.py:254-330 | a user with identity, password and roles is created, or the first violated rule is reported and nothing changes |
| ControlStores.ControlStore.LinkIdentity | src/sqltide/auth/classes/control_store.py:282-297 | local identities are invalid, a missing subject is the user name, taken identities conflict |
| ControlStores.ControlStore.RolesFor | src/sqltide/auth/classes/control_store.py:306-313 | roles are assigned in order up to the first unknown or repeated one |
| ControlStores.ControlStore.AuthenticatePassword | src/sqltide/auth/classes/control_store.py:395-446 | a session is created exactly for an active user with that canonical name and password |
| ControlStores.ControlStore.RevokeSession | src/sqltide/auth/classes/control_store.py:487-508 | a known session is revoked and identities are invalidated; an unknown one changes nothing |
| ControlStores.ControlStore.SetUserActive | src/sqltide/auth/classes/control_store.py:510-546 | disabling revokes the user's sessions and is refused for the last active administrator |
| ControlStores.ControlStore.UpdateProfile | src/sqltide/auth/classes/control_store.py:548-581 | the profile changes, or the user is not found |
| ControlStores.ControlStore.UpdateAccount | src/sqltide/auth/classes/control_store.py:583-634 | profile and activity change in one transaction, with the same guard and revocation |
| ControlStores.ControlStore.ResetPassword | src/sqltide/auth/classes/control_store.py:636-683 | the password is replaced and all sessions of the user are revoked |
| ControlStores.ControlStore.GrantRole | src/sqltide/auth/classes/control_store.py:685-718 | a known role is assigned once |
| ControlStores.ControlStore.RevokeRole | src/sqltide/auth/classes/control_store.py:720-753 | an assigned role is taken away, but not from the last active administrator |
| ControlStores.ControlStore.GrantProjectRole | src/sqltide/auth/classes/control_store.py:755-823 | a project role is granted unless names are invalid, the user is missing or the slot is taken |
| ControlStores.ControlStore.RevokeProjectRole | src/sqltide/auth/classes/control_store.py:825-871 | an active assignment is revoked and kept |
| ControlStores.ControlStore.PruneSessions | src/sqltide/auth/classes/control_store.py:919-927 | exactly the expired and revoked sessions are deleted, and counted |
| ControlStores.ControlStore.ResolveSession | src/sqltide/auth/classes/control_store.py:448-485 | a session resolves exactly when it is present, unrevoked, unexpired and its user active, to that user, with its token against forgery and exactly the roles assigned to that user |
| ControlStores.ControlStore.RolesForUser | src/sqltide/auth/classes/control_store.py:1021-1028 | exactly the roles assigned to the user |
| ControlStores.ControlStore.ListProjectRoleAssignments | src/sqltide/auth/classes/control_store.py:873-895 | exactly the active assignments of a user in a project |
| ControlStores.ControlStore.CheckLastAdmin | src/sqltide/auth/classes/control_store.py:1033-1056 | whether the user is an administrator and at most one active administrator exists |
| AccountInvariants.OperationsKeepInvariant | src/sqltide/auth/classes/control_store.py:254-927 | every operation keeps the links between tables, the session rules, the uniqueness of active assignments and the audit balance |
| AccountInvariants.AnAdminRemains | src/sqltide/auth/classes/control_store.py:1033-1056 | no operation takes the last active administrator away |
| AccountInvariants.AdminsAreForever | src/sqltide/auth/classes/control_store.py:510-753 | in every history, an active administrator at one time means one at every later time |
| AccountInvariants.RevokedSessionsNeverResolve | src/sqltide/auth/classes/control_store.py:448-508 | in every history, a session once revoked never resolves again |
| AccountInvariants.HistoriesKeepTheTables | src/sqltide/auth/classes/control_store.py:395-871 | in every history, unrevoked sessions belong to active users, active assignments have distinct slots, and granted minus revoked audit records is the number of active assignments |
| AccountInvariants.RevokingFreesTheSlot | src/sqltide/auth/classes/control_store.py:825-860 | in every history, once an assignment is revoked the same one may be granted under a new id, and before that it is refused |
| AccountHistories.RolesAreLastGiven | src/sqltide/auth/classes/control_store.py:685-753 | in every history, a user has a role if and only if the last successful operation on that user and role was a grant or the creation with it |
| AccountHistories.ProfilesAreLastSet | src/sqltide/auth/classes/control_store.py:548-634 | in every history, display name and mail address are those last set, without the white space around them |
| AccountHistories.NamesAreGiven | src/sqltide/auth/classes/control_store.py:254-330 | in every history, a user has the canonical name it was created under |
| AccountHistories.ActivityIsLastSet | src/sqltide/auth/classes/control_store.py:510-634 | in every history, a user is active if and only if the last successful operation on that made it so |
| AccountHistories.LoginsAreThoseSet | src/sqltide/auth/classes/control_store.py:395-446 | in every history, a name and a password log in as a user if and only if the user is active, was created under that canonical name, and had that password set last |
| AccountHistories.AssignmentsAreThoseGranted | src/sqltide/auth/classes/control_store.py:755-871 | in every history, a project assignment holds the user and the cleaned names granted under its id, and is revoked if and only if a later operation revoked it |
| AccountHistories.SessionResolvesExactly | src/sqltide/auth/classes/control_store.py:395-508 | in every history, a session handed out by a login resolves if and only if it has not expired and since then no operation has revoked it, disabled its user, reset the password or pruned it after its expiry |
| AccountHistories.SessionsServeTheirUser | src/sqltide/auth/classes/control_store.py:448-485 | in every history, a session resolves to the user whose login handed out its token, with that login's token against forgery, an active user with the name given, the profile last set and exactly the roles last given |
| AccountHistories.ProxiesServeTheirUser | src/sqltide/auth/classes/control_store.py:332-393 | in every history, a proxy's subject resolves to the user created with it, the same way |
| AccountHistories.OthersAreUntouched | src/sqltide/auth/classes/control_store.py:254-927 | an operation on another user changes neither this user's row nor its roles |
| AccountHistories.OthersKeepSessions | src/sqltide/auth/classes/control_store.py:254-927 | nor what a session of this user resolves to at any later time |
| AccountHistories.OthersKeepProxies | src/sqltide/auth/classes/control_store.py:254-927 | nor what a subject linked to this user resolves to |
| AuthenticationCache.AuthenticationService.Cached | src/sqltide/auth/classes/authentication_service.py:140-151 | a cached answer that is served is right now; an entry out of time or revision is dropped |
| AuthenticationCache.AuthenticationService.Remember | src/sqltide/auth/classes/authentication_service.py:153-162 | a store answer is cached for five seconds from when it is remembered, under the current revision, and only expired entries are evicted |
| AuthenticationCache.AuthenticationService.AuthenticateSession | src/sqltide/auth/classes/authentication_service.py:121-138 | whoever is served is right: what the store would answer, or, shortly past the expiry, the identity of the session's active user as it is now, never of a revoked session; whoever is refused would be refused by the store |
| AuthenticationCache.AuthenticationService.AuthenticateProxy | src/sqltide/auth/classes/authentication_service.py:79-119 | the same for proxy identities, also when the user is provisioned on the way; provisioning is the only change of the store, and when it is refused nothing has changed |
| AuthenticationCache.RevisionCovers | src/sqltide/auth/classes/control_store.py:1030-1031 | every operation advances the revision or changes nothing that a cached answer depends on |
| AuthenticationCache.OperationsKeepCache | src/sqltide/auth/classes/control_store.py:198-202 | after any operation cached entries are right or out of revision |
| AuthenticationCache.ServedIdentitiesAreRight | src/sqltide/auth/classes/authentication_service.py:79-162 | in every sequential run, a served identity is the one the store would give now, except that a session may be served less than five seconds past its expiry, plus what the clocks drift apart and remembering is delayed, and then with its user's present identity and never after a revocation; nobody the store would serve is refused |
| AuthenticationCache.RunsAreHistories | src/sqltide/auth/classes/authentication_service.py:79-162 | the operations among the calls of a run are a history of the accounts that ends in the run's tables |
| AuthenticationCache.ServedAsOperated | src/sqltide/auth/classes/authentication_service.py:79-162 | in every sequential run, cached or not, whoever is served is the user who logged in for the token or was created with the subject, active, with the profile last set and exactly the roles last given by the operations of the run |
| LoginLimiter.LoginAttemptLimiter.constructor | src/sqltide/auth/classes/login_attempt_limiter.py:20-22 | a new limiter satisfies the invariant for any number of concurrent logins |
| LoginLimiter.LoginAttemptLimiter.ActiveAttempts | src/sqltide/auth/classes/login_attempt_limiter.py:45-50 | the loop pops the front of a queue that is out of the window, creating the queue when absent |
| LoginLimiter.LoginAttemptLimiter.Prune | src/sqltide/auth/classes/login_attempt_limiter.py:52-55 | all queues are brought up to date and empty ones are dropped |
| LoginLimiter.LoginAttemptLimiter.Check | src/sqltide/auth/classes/login_attempt_limiter.py:24-33 | a login is admitted exactly under the limits of the last minute, or refused for a new user when too many keys are kept |
| LoginLimiter.LoginAttemptLimiter.Failed | src/sqltide/auth/classes/login_attempt_limiter.py:35-39 | a failure is recorded for the client and the user and keeps the invariant |
| LoginLimiter.LoginAttemptLimiter.Succeeded | src/sqltide/auth/classes/login_attempt_limiter.py:41-43 | a success forgets the user's failures and keeps the invariant |
| LoginLimiter.TailCounts | src/sqltide/auth/classes/login_attempt_limiter.py:45-50 | the length of the popped queue is the number of recorded failures in the last minute |
| LoginLimiter.FailureMoves | src/sqltide/auth/classes/login_attempt_limiter.py:35-39 | a failure replaces one login in between by one recorded failure, so no window exceeds its limit |
| LoginLimiter.StepHolds | src/sqltide/auth/classes/login_attempt_limiter.py:24-55 | every admitted or refused check and every outcome keeps the invariant |
| LoginLimiter.RecordedAreFailures | src/sqltide/auth/classes/login_attempt_limiter.py:35-43 | in every run, what is recorded of a key are the times of the failed calls that touch it, of a user those since the last success |
| LoginLimiter.FailuresAreLimited | src/sqltide/auth/classes/login_attempt_limiter.py:24-55 | in every run with at most k logins between check and outcome and a clock that never goes back, any closed minute holds at most 19 + k failures of a client and 4 + k of a user since that user's last success |
| Authorization.Decide | src/sqltide/authorization/classes/project_authorizer.py:28-132 | the verdict, the reason, the matched roles and the missing pipelines are those the grants of the assigned roles define |
| Authorization.CoveredBy | src/sqltide/authorization/classes/project_authorizer.py:106-112 | the pipelines one role covers |
| Authorization.CoveringRoles | src/sqltide/authorization/classes/project_authorizer.py:105-117 | the covering roles and the union of what they cover |
| Authorization.MatchingRoles | src/sqltide/authorization/classes/project_authorizer.py:79-86 | the roles with a grant of the requested scope |
| Authorization.Summarize | src/sqltide/authorization/classes/project_authorizer.py:134-187 | what the summary lists is exactly what the grants of the assigned roles give |
| Authorization.CapabilitiesOf | src/sqltide/authorization/classes/project_authorizer.py:134-149 | an administrator is listed for everything |
| Authorization.CoveredPipelines | src/sqltide/authorization/classes/project_authorizer.py:243-257 | the pipelines listed for a permission |
| Authorization.ScopedPermissionGranted | src/sqltide/authorization/classes/project_authorizer.py:237-240 | a permission is listed when a grant with a scope gives it |
| Authorization.PipelinesAgree | src/sqltide/authorization/classes/project_authorizer.py:28-187 | a pipeline request with a non-empty scope in the project and a pipeline permission is allowed if and only if the summary lists every pipeline for it; no other permission is listed for pipelines |
| Authorization.PipelinesDisagree | src/sqltide/authorization/classes/project_authorizer.py:28-187 | under a valid policy, request and summary disagree exactly on permissions that are no pipeline permissions and that an assigned role has for the whole project |
| Authorization.ReloadIsAllowedUnlisted | src/sqltide/authorization/classes/project_authorizer.py:211-257 | such a request: a project grant of reloading allows a pipeline request that no summary lists |
| Authorization.ScopesAgree | src/sqltide/authorization/classes/project_authorizer.py:223-240 | under a valid policy, a target request is allowed if and only if the summary lists the permission, a project request only if it does |
| Authorization.ScopedIsListed | src/sqltide/compiler/access/_helpers/schema.py:130-160 | under the rules for grants, what an assigned role has in a scope is a permission of the summary |
| Authorization.ListedForTargetsOnly | src/sqltide/authorization/classes/project_authorizer.py:223-240 | a permission the summary lists is refused for a project request if and only if every grant by which an assigned role has it is for targets |
| Authorization.ListedForTargetsOnlyHere | src/sqltide/authorization/classes/project_authorizer.py:223-240 | there is such a permission: managing automation at targets |
| Authorization.UnionIsConjunction | src/sqltide/authorization/classes/project_authorizer.py:98-132 | deciding on a union of non-empty scopes is deciding on each |
| Authorization.AssignmentsOnlyAdd | src/sqltide/authorization/classes/project_authorizer.py:48-76 | adding assignments never revokes an allowed request |
| Authorization.OtherTargetsAreIgnored | src/sqltide/authorization/classes/project_authorizer.py:48-54 | assignments for other targets count for nothing and all others count: rows that agree but for other targets give the same roles, verdict, reason and matched roles |

## Left out

- Lines, columns and messages of errors; errors are told apart by kind and, where the code locates them, by offset.
- The Unicode tables for letters, digits and case mapping: constants without a value, of which only the ASCII facts and the full mappings to ASCII letters are fixed.
- `outer_star_span` and `outer_double_colon_type` in projections.rs, and macros: easy members over the same scanners.
- The binary value of header floats: a float keeps its literal.
- HeaderRoundTrip.HeaderIsReadBack: headers are written with one space behind a key or call word and one comma between entries; other white space, newlines and missing commas are parsed by the same model but not written.
- ReferenceTypes.ReferenceTypeRoundTrip: the second argument is written without white space or comments; those are part of the model of `ReadArgumentText`.
- Parsing and generating SQL: functions of their input that may fail. `SELECT * FROM` and the target are parsed as one statement.
- Aggregate names and GROUP BY in the tree traversal: they do not interact with relations.
- Number and boolean leaves of trees: one kind of scalar with its text.
- RewriteWalk.RewriteTree: requires that targets hold no reference. The source walks into what it has put in and does not end when a target refers to itself.
- RelationCaches.RelationCache.Resolve: the two substitutions report one kind of failure, and the spans of references must not overlap, on which the source would panic.
- ReferenceSpans.Substituted: requires ordered spans, as its only caller sorts them.
- WalksAgree.WalksFindTheSame: stated for trees in which no reference call and no table node holds a reference; the two walks differ on what is hidden there.
- JSON encoding of the checkpoint, the state of the random generator and its weights: the checkpoint is the state, draws are arbitrary.
- Producer.Producer.RunStream: the endless loop is modelled for any number of ticks.
- The event log reorders only events of different orders; retries that reorder events of one order are not modelled.
- `inject_future_event`: a separate space of event ids.
- Output text, reporting, environment and command line of builds; the two timed waits of a cancellation are one stage that the child's exit or both timeouts end.
- Build requests served concurrently with one another.
- Password hashing and token hashing: injective, so that credentials and tokens stand for their hashes; rehashing changes nothing visible. Tokens are drawn fresh.
- Timestamps of rows other than session expiry, `last_seen_at`, actors and details of audit records.
- AuthenticationCache.ServedIdentitiesAreRight: the wall clock of the store and the monotonic clock of the cache are two clocks whose distance stays within a fixed range, and remembering follows resolving within a fixed delay; with both zero the bound is five seconds. Provisioning in a run is an operation of its own before the request.
- `update_account` reading before it locks and `_remember` reading the revision late, under several threads: operations are atomic.
- LoginLimiter.LoginAttemptLimiter.Check: the clock is read once for each locked call, and `LOGIN_LIMITER_MAX_KEYS` only refuses users without an entry; it does not bound the number of keys.
- The order of the authorizer's tuples: sets. Role names are unique in a policy. Of the policy compiler only the rule which permissions a grant may carry is modelled.
- `feed`, `close` and the other readers without effect on the protocols.
