# Verification model of the grammar front end and of the stateful library cores

A Dafny model of the parts of the framework whose correctness is a matter of
algorithms: the front end for PEG grammars, URI handling after RFC 3986, and
several small stateful classes. `dafny verify dfyconfig.toml` checks all of it.

Where the source works step by step the model does: classes with the source's
fields, methods with its loops, each proved against a specification function
about which the properties are then proved. Where the source is an expression or
a recursion the model is a function.

* **Grammar front end.** `GrammarTree` holds trees and tokens. `GrammarDescent`
  is the parser without its cache; `PackratParser` is the parser as written, over
  a token index and a packrat cache, and agrees with it for any cache;
  `PackratBound` bounds the work. `GrammarWriting` gives the tokens of every tree
  apart from the parser, `GrammarBrackets` and `GrammarReading` show that they are
  read back, and `GrammarSoundness` that nothing else is read. `GrammarPrinter`
  prints trees; `GrammarRoundTrip` and `GrammarExact` show exactly which are read back
  from their tokens. `GrammarTokenizer`, with the laws in `TokenizerLaws` and
  `IndentationLaws`, `GrammarText` and `GrammarOffsets` go on to lines, characters and
  bytes. `Nullables`, `NullableClasses`, `FirstSets`, `FirstEquations`,
  `FirstSolutions`, `FirstCycles` and `Flattening` are the analyses over recursive grammars.
* **Paths and URIs.** `DotSegments`, `Paths`, `UriText`, `UriTextKept`,
  `UriResolution`, and `UriObjects` with the classes.
* **Stateful classes.** `Services`, `NoDups`, `Negotiation`, `StringReading`,
  `Brackets`, `Orderings`.

`Wrappers` holds optional values and PHP's arrays keyed by name.

Several promises turn out false of the code. For each there is a condition under
which it holds, exact unless said otherwise, and an input that fails it:

* Grammars that are written are read back except for two clashes, and printed ones
  except for one (`GrammarReading.ReadingUndoesWriting`, `GrammarReading.AMetaClashFails`,
  `GrammarRoundTrip.ParsingUndoesPrinting`, `GrammarRoundTrip.AClashFails`).
* A name `EndMarker` ends a parse early; the condition for the whole input is
  sufficient (`GrammarRoundTrip.StartTakesTheWholeInput`,
  `GrammarReading.TheWordEndMarkerHidesTheRest`).
* Strings in triple quotes may go over several lines, except after a string that was
  given up (`IndentationLaws.StringGoesOn`, `IndentationLaws.ThenTripleQuotesFail`).
* Printed text is read back when it is ASCII, which is sufficient
  (`GrammarOffsets.ReadingUndoesPrinting`, `GrammarOffsets.WideLiteralIsLost`).
* Nullable rules can be missed. What is marked is exact where rules refer backward,
  and all that is nullable where they refer forward
  (`NullableClasses.BackwardMarksAreRightExactlyWhere`, `NullableClasses.ForwardMarks`,
  `Nullables.NullablesMissDepthOne`).
* Relative paths do not follow section 5.2.4 of RFC 3986, and a path "0" is lost
  (`DotSegments.AgreesExactlyWhere`, `DotSegments.ParentOfFirstSegment`, `DotSegments.ZeroIsLost`).
* Normalized paths are not always recovered by `rel` and `combine`
  (`Paths.RelThenCombine`, `Paths.RelCutsASegment`).
* Not every URI is printed as it was parsed
  (`UriTextKept.TextsAreKeptExactlyWhere`, `UriTextKept.TextsThatChange`).
* The clean-up of locks can show (`NoDups.InvisibleExactlyWhere`, whose other half is a run).
* The most specific range decides, unless another has 10 more parameters
  (`Negotiation.SpecificOutranks`, `Negotiation.DetectedByTheListedType`, which is sufficient).
* A media range of weight 0 can be detected
  (`Negotiation.DetectsUnacceptableExactlyWhere`, `Negotiation.WeightZeroIsDetected`).
* `unread` after a look goes back too far
  (`StringReading.UnreadTakesBackExactlyWhere`, `StringReading.UnreadGoesBackTooFar`).

Every lemma carries `{:induction false}`: its body is its whole proof.

## Model

| member | source | states |
|---|---|---|
| GrammarDescent.Start | module/site/lib/Compiler/Frontend/Peg/GrammarParser.php:21-33 | A tree ends after the index it starts from and inside the list; the recursion below it ends on every token list, by tokens left and rank of the rule |
| GrammarDescent.GrammarAt | module/site/lib/Compiler/Frontend/Peg/GrammarParser.php:38-54 | The rule without a cache: what it gives ends strictly after its start and not past the end marker that closes the list, on every token list |
| GrammarDescent.Metas | module/site/lib/Compiler/Frontend/Peg/GrammarParser.php:59-75 | The rule without a cache: what it gives ends strictly after its start and not past the end marker that closes the list, on every token list |
| GrammarDescent.MetaAt | module/site/lib/Compiler/Frontend/Peg/GrammarParser.php:80-100 | The rule without a cache: what it gives ends strictly after its start and not past the end marker that closes the list, on every token list |
| GrammarDescent.Rules | module/site/lib/Compiler/Frontend/Peg/GrammarParser.php:105-121 | The rule without a cache: what it gives ends strictly after its start and not past the end marker that closes the list, on every token list; the list is not empty |
| GrammarDescent.RuleAt | module/site/lib/Compiler/Frontend/Peg/GrammarParser.php:126-172 | The rule without a cache: what it gives ends strictly after its start and not past the end marker that closes the list, on every token list |
| GrammarDescent.RuleNameAt | module/site/lib/Compiler/Frontend/Peg/GrammarParser.php:177-193 | The rule without a cache: what it gives ends strictly after its start and not past the end marker that closes the list, on every token list |
| GrammarDescent.MemoFlag | module/site/lib/Compiler/Frontend/Peg/GrammarParser.php:198-210 | The rule without a cache: what it gives ends strictly after its start and not past the end marker that closes the list, on every token list |
| GrammarDescent.Alts | module/site/lib/Compiler/Frontend/Peg/GrammarParser.php:215-231 | The rule without a cache: what it gives ends strictly after its start and not past the end marker that closes the list, on every token list |
| GrammarDescent.MoreAlts | module/site/lib/Compiler/Frontend/Peg/GrammarParser.php:236-257 | The rule without a cache: what it gives ends strictly after its start and not past the end marker that closes the list, on every token list |
| GrammarDescent.AltAt | module/site/lib/Compiler/Frontend/Peg/GrammarParser.php:262-294 | The rule without a cache: what it gives ends strictly after its start and not past the end marker that closes the list, on every token list |
| GrammarDescent.Items | module/site/lib/Compiler/Frontend/Peg/GrammarParser.php:299-315 | The rule without a cache: what it gives ends strictly after its start and not past the end marker that closes the list, on every token list; the list is not empty |
| GrammarDescent.NamedItemAt | module/site/lib/Compiler/Frontend/Peg/GrammarParser.php:320-365 | The rule without a cache: what it gives ends strictly after its start and not past the end marker that closes the list, on every token list |
| GrammarDescent.ForcedAtom | module/site/lib/Compiler/Frontend/Peg/GrammarParser.php:370-386 | The rule without a cache: what it gives ends strictly after its start and not past the end marker that closes the list, on every token list |
| GrammarDescent.LookaheadAt | module/site/lib/Compiler/Frontend/Peg/GrammarParser.php:393-421 | The rule without a cache: what it gives ends strictly after its start and not past the end marker that closes the list, on every token list |
| GrammarDescent.ItemAt | module/site/lib/Compiler/Frontend/Peg/GrammarParser.php:429-469 | The rule without a cache: what it gives ends strictly after its start and not past the end marker that closes the list, on every token list |
| GrammarDescent.AtomAt | module/site/lib/Compiler/Frontend/Peg/GrammarParser.php:476-500 | The rule without a cache: what it gives ends strictly after its start and not past the end marker that closes the list, on every token list |
| GrammarDescent.Action | module/site/lib/Compiler/Frontend/Peg/GrammarParser.php:505-521 | The rule without a cache: what it gives ends strictly after its start and not past the end marker that closes the list, on every token list; the text is a true value of PHP |
| GrammarDescent.Annotation | module/site/lib/Compiler/Frontend/Peg/GrammarParser.php:526-538 | The rule without a cache: what it gives ends strictly after its start and not past the end marker that closes the list, on every token list; the text is a true value of PHP |
| GrammarDescent.TargetAtoms | module/site/lib/Compiler/Frontend/Peg/GrammarParser.php:543-559 | The rule without a cache: what it gives ends strictly after its start and not past the end marker that closes the list, on every token list |
| GrammarDescent.TargetAtom | module/site/lib/Compiler/Frontend/Peg/GrammarParser.php:564-616 | The rule without a cache: what it gives ends strictly after its start and not past the end marker that closes the list, on every token list |
| GrammarDescent.Expect | module/site/lib/Compiler/Frontend/Peg/Parser.php:45-64 | What is expected is the token at the index and moves it by one; the end marker that closes the list is only taken where it is expected |
| PackratParser.GrammarParser.Memoize | module/site/lib/Compiler/Frontend/Peg/Parser.php:79-92 | With any cache that earlier calls left, the value and the index afterwards are those of the descent without a cache; the level and the bodies under way are as before, and the cache stays right |
| PackratParser.Run | module/site/lib/Compiler/Frontend/Peg/GrammarParser.php:21-657 | Null leaves the index where it was; anything else moves it strictly forward and, but for `start`, not past the end marker that closes the list |
| PackratParser.GrammarParser.StartBody | module/site/lib/Compiler/Frontend/Peg/GrammarParser.php:21-33 | The closure that saves, advances and puts back the index leaves the result and the index of the descent from where it started, and keeps the cache right |
| PackratParser.GrammarParser.GrammarBody | module/site/lib/Compiler/Frontend/Peg/GrammarParser.php:38-54 | The closure that saves, advances and puts back the index leaves the result and the index of the descent from where it started, and keeps the cache right |
| PackratParser.GrammarParser.MetasBody | module/site/lib/Compiler/Frontend/Peg/GrammarParser.php:59-75 | The closure that saves, advances and puts back the index leaves the result and the index of the descent from where it started, and keeps the cache right |
| PackratParser.GrammarParser.MetaBody | module/site/lib/Compiler/Frontend/Peg/GrammarParser.php:80-100 | The closure that saves, advances and puts back the index leaves the result and the index of the descent from where it started, and keeps the cache right |
| PackratParser.GrammarParser.RulesBody | module/site/lib/Compiler/Frontend/Peg/GrammarParser.php:105-121 | The closure that saves, advances and puts back the index leaves the result and the index of the descent from where it started, and keeps the cache right |
| PackratParser.GrammarParser.RuleBody | module/site/lib/Compiler/Frontend/Peg/GrammarParser.php:126-172 | The closure that saves, advances and puts back the index leaves the result and the index of the descent from where it started, and keeps the cache right |
| PackratParser.GrammarParser.RuleNameBody | module/site/lib/Compiler/Frontend/Peg/GrammarParser.php:177-193 | The closure that saves, advances and puts back the index leaves the result and the index of the descent from where it started, and keeps the cache right |
| PackratParser.GrammarParser.MemoFlagBody | module/site/lib/Compiler/Frontend/Peg/GrammarParser.php:198-210 | The closure that saves, advances and puts back the index leaves the result and the index of the descent from where it started, and keeps the cache right |
| PackratParser.GrammarParser.AltsBody | module/site/lib/Compiler/Frontend/Peg/GrammarParser.php:215-231 | The closure that saves, advances and puts back the index leaves the result and the index of the descent from where it started, and keeps the cache right |
| PackratParser.GrammarParser.MoreAltsBody | module/site/lib/Compiler/Frontend/Peg/GrammarParser.php:236-257 | The closure that saves, advances and puts back the index leaves the result and the index of the descent from where it started, and keeps the cache right |
| PackratParser.GrammarParser.AltBody | module/site/lib/Compiler/Frontend/Peg/GrammarParser.php:262-294 | The closure that saves, advances and puts back the index leaves the result and the index of the descent from where it started, and keeps the cache right |
| PackratParser.GrammarParser.ItemsBody | module/site/lib/Compiler/Frontend/Peg/GrammarParser.php:299-315 | The closure that saves, advances and puts back the index leaves the result and the index of the descent from where it started, and keeps the cache right |
| PackratParser.GrammarParser.NamedItemBody | module/site/lib/Compiler/Frontend/Peg/GrammarParser.php:320-365 | The closure that saves, advances and puts back the index leaves the result and the index of the descent from where it started, and keeps the cache right |
| PackratParser.GrammarParser.ForcedAtomBody | module/site/lib/Compiler/Frontend/Peg/GrammarParser.php:370-386 | The closure that saves, advances and puts back the index leaves the result and the index of the descent from where it started, and keeps the cache right |
| PackratParser.GrammarParser.LookaheadBody | module/site/lib/Compiler/Frontend/Peg/GrammarParser.php:393-421 | The closure that saves, advances and puts back the index leaves the result and the index of the descent from where it started, and keeps the cache right |
| PackratParser.GrammarParser.ItemBody | module/site/lib/Compiler/Frontend/Peg/GrammarParser.php:429-469 | The closure that saves, advances and puts back the index leaves the result and the index of the descent from where it started, and keeps the cache right |
| PackratParser.GrammarParser.AtomBody | module/site/lib/Compiler/Frontend/Peg/GrammarParser.php:476-500 | The closure that saves, advances and puts back the index leaves the result and the index of the descent from where it started, and keeps the cache right |
| PackratParser.GrammarParser.ActionBody | module/site/lib/Compiler/Frontend/Peg/GrammarParser.php:505-521 | The closure that saves, advances and puts back the index leaves the result and the index of the descent from where it started, and keeps the cache right |
| PackratParser.GrammarParser.AnnotationBody | module/site/lib/Compiler/Frontend/Peg/GrammarParser.php:526-538 | The closure that saves, advances and puts back the index leaves the result and the index of the descent from where it started, and keeps the cache right |
| PackratParser.GrammarParser.TargetAtomsBody | module/site/lib/Compiler/Frontend/Peg/GrammarParser.php:543-559 | The closure that saves, advances and puts back the index leaves the result and the index of the descent from where it started, and keeps the cache right |
| PackratParser.GrammarParser.TargetAtomBody | module/site/lib/Compiler/Frontend/Peg/GrammarParser.php:564-616 | The closure that saves, advances and puts back the index leaves the result and the index of the descent from where it started, and keeps the cache right |
| PackratParser.GrammarParser.ReadStart | module/site/lib/Compiler/Frontend/Peg/GrammarParser.php:21-33 | Parsing from the current index gives the tree of the descent, or null with the index put back |
| PackratParser.GrammarParser.ExpectBody | module/site/lib/Compiler/Frontend/Peg/Parser.php:45-64 | The token reader gives what the descent expects and moves the index by one only then |
| PackratParser.GrammarParser.TokenBody | module/site/lib/Compiler/Frontend/Peg/GrammarParser.php:620-657 | The readers of names, strings, numbers and operators give the token of that type or leave the index |
| PackratBound.RunsAreLinear | module/site/lib/Compiler/Frontend/Peg/Parser.php:79-92 | In one parse no body runs twice for one rule, argument and index, so there are at most 48 runs for each position of the token list |
| PackratBound.ParseGrammar | module/site/lib/Compiler/Frontend/Peg/Peg.php:31-35 | A new parser gives the tree of the descent, or none, after at most 48 runs of bodies for each position |
| GrammarBrackets.AtomSquare | module/site/lib/Compiler/Frontend/Peg/GrammarParser.php:564-616 | The tokens of a target atom hold square brackets in pairs |
| GrammarBrackets.ItemSquare | module/site/lib/Compiler/Frontend/Peg/GrammarParser.php:429-469 | So do the tokens of every item, whatever is nested in it |
| GrammarBrackets.TargetAtomsEven | module/site/lib/Compiler/Frontend/Peg/GrammarParser.php:543-559 | Whatever the parser reads as target atoms, on any sane token list, holds square brackets in pairs |
| GrammarBrackets.PairsAgree | module/site/lib/Compiler/Frontend/Peg/GrammarParser.php:526-538 | Two readings of brackets that open at one place close at one place |
| GrammarBrackets.BracketsAreNoType | module/site/lib/Compiler/Frontend/Peg/GrammarParser.php:320-365 | So the brackets of an item after a name are not taken for the type of that name |
| GrammarReading.TargetAtomsBack | module/site/lib/Compiler/Frontend/Peg/GrammarParser.php:543-559 | Target atoms are read back as their texts joined by spaces: code is trimmed, a star joins its word, and what stands in nested brackets is dropped |
| GrammarReading.ActionBack | module/site/lib/Compiler/Frontend/Peg/GrammarParser.php:505-521 | An action is read back from any spelling of its text in braces |
| GrammarReading.AnnotationBack | module/site/lib/Compiler/Frontend/Peg/GrammarParser.php:526-538 | A type is read back from any spelling of its text in square brackets |
| GrammarReading.AtomBack | module/site/lib/Compiler/Frontend/Peg/GrammarParser.php:476-500 | A name, a string literal or a group is read back as the atom it was written from |
| GrammarReading.ItemBack | module/site/lib/Compiler/Frontend/Peg/GrammarParser.php:429-469 | Every item is read back: `?` gives `Opt`, `*` gives `Repeat0`, `+` gives `Repeat1`, `.` and `+` give `Gather`, and brackets give `Opt` of their alternatives |
| GrammarReading.SignBack | module/site/lib/Compiler/Frontend/Peg/GrammarParser.php:370-421 | Two `&` give a forced atom, one gives a positive lookahead, `!` a negative one and `~` a cut, each by its own rule and not as an item |
| GrammarReading.TypeBack | module/site/lib/Compiler/Frontend/Peg/GrammarParser.php:326-334 | A name with a type and an equals sign is read back as both |
| GrammarReading.NoNameBack | module/site/lib/Compiler/Frontend/Peg/GrammarParser.php:320-365 | An item without a name is not taken for one with a name, or with a name and a type |
| GrammarReading.NamedItemBack | module/site/lib/Compiler/Frontend/Peg/GrammarParser.php:320-365 | Every item is read back with its name and its type, or without |
| GrammarReading.ItemsBack | module/site/lib/Compiler/Frontend/Peg/GrammarParser.php:299-315 | The items of an alternative are read back up to the token that ends them |
| GrammarReading.AltBack | module/site/lib/Compiler/Frontend/Peg/GrammarParser.php:262-294 | An alternative is read back with or without `$` at its end, and with or without an action |
| GrammarReading.AltsBack | module/site/lib/Compiler/Frontend/Peg/GrammarParser.php:215-231 | Alternatives on one line are read back |
| GrammarReading.HeadBack | module/site/lib/Compiler/Frontend/Peg/GrammarParser.php:126-210 | The name, the type and the mark for memoising before the colon are read over, and name and type kept |
| GrammarReading.LinesBack | module/site/lib/Compiler/Frontend/Peg/GrammarParser.php:236-257 | Alternatives on lines of their own are read back, however many stand on each |
| GrammarReading.WordsOfABlock | module/site/lib/Compiler/Frontend/Peg/GrammarParser.php:126-172 | Only alternatives that begin with the unnamed names `NewLine` and `Indent` before a second alternative read like the start of a block |
| GrammarReading.RuleBack | module/site/lib/Compiler/Frontend/Peg/GrammarParser.php:126-172 | A rule is read back in each of its three layouts, unless it looks like a block and its next is named `Dedent` |
| GrammarReading.RulesBack | module/site/lib/Compiler/Frontend/Peg/GrammarParser.php:105-121 | All rules are read back in order; with the clash the reading stops before the end of the list |
| GrammarReading.MetaBack | module/site/lib/Compiler/Frontend/Peg/GrammarParser.php:80-100 | A meta is read back with no value, a name or a literal; one with the name `NewLine` loses it |
| GrammarReading.MetasBack | module/site/lib/Compiler/Frontend/Peg/GrammarParser.php:59-75 | All metas are read back in order, up to the first of those |
| GrammarReading.ReadingUndoesWriting | module/site/lib/Compiler/Frontend/Peg/GrammarParser.php:21-657 | The tokens of every grammar, with repetitions, forced atoms, names, types, actions and metas, in every layout and spelling, are parsed back to that grammar and all used, exactly unless a meta has the name `NewLine` for its value or a one-line rule that begins with `NewLine Indent |` is followed by a rule named `Dedent`; then parsing fails |
| GrammarReading.SampleIsRead | module/site/lib/Compiler/Frontend/Peg/GrammarParser.php:21-657 | For instance a grammar with a meta, a typed rule marked for memoising, a named and typed repetition, a forced atom, an action and a second line is read back |
| GrammarReading.AMetaClashFails | module/site/lib/Compiler/Frontend/Peg/GrammarParser.php:80-100 | A grammar with a meta `@m NewLine` is written and never parsed |
| GrammarReading.TheWordEndMarkerHidesTheRest | module/site/lib/Compiler/Frontend/Peg/Parser.php:45-64 | After any metas and rules without a clash, a name `EndMarker` ends the parse and hides all that follows exactly when no rule can be read from it on, which is so unless `:`, `[` or `(` comes next |
| GrammarSoundness.ExpectSays | module/site/lib/Compiler/Frontend/Peg/Parser.php:45-64 | `expect` takes a token exactly when its value is the text expected, or the text is one of the four words for layout and the name of its type |
| GrammarSoundness.TargetAtomsIs | module/site/lib/Compiler/Frontend/Peg/GrammarParser.php:543-559 | A text that is read stands there, atom by atom, all of them true values of PHP |
| GrammarSoundness.ItemAtIs | module/site/lib/Compiler/Frontend/Peg/GrammarParser.php:429-469 | An item that is read stands there: the marks, brackets and atoms of its tree are the tokens it takes |
| GrammarSoundness.NamedItemIs | module/site/lib/Compiler/Frontend/Peg/GrammarParser.php:320-365 | So does an item with its name and type; no lookahead, forced atom or cut has a name |
| GrammarSoundness.AltAtIs | module/site/lib/Compiler/Frontend/Peg/GrammarParser.php:262-294 | So does an alternative with `$` and action |
| GrammarSoundness.AltsIs | module/site/lib/Compiler/Frontend/Peg/GrammarParser.php:215-231 | So do alternatives between bars |
| GrammarSoundness.MoreAltsIs | module/site/lib/Compiler/Frontend/Peg/GrammarParser.php:236-257 | So do lines of alternatives |
| GrammarSoundness.RulesIs | module/site/lib/Compiler/Frontend/Peg/GrammarParser.php:105-172 | So do rules, each in one of three layouts |
| GrammarSoundness.MetasIs | module/site/lib/Compiler/Frontend/Peg/GrammarParser.php:59-100 | So do metas |
| GrammarSoundness.WhatIsReadIsThere | module/site/lib/Compiler/Frontend/Peg/GrammarParser.php:21-33 | On every token list, a grammar that is read is made from metas and rules that the tokens before the end marker stand for, one after another |
| GrammarRoundTrip.CanonicalRuleIs | module/site/lib/Compiler/Frontend/Peg/Grammar.php:103-117 | The tokens of a printed canonical rule are the tokens it is written as, on one line or with each alternative on its own |
| GrammarRoundTrip.PrintingIsWriting | module/site/lib/Compiler/Frontend/Peg/Grammar.php:43-49 | The printer writes every canonical grammar in a style of its own, and the clash of printed rules is the clash of written ones |
| GrammarRoundTrip.ParsingUndoesPrinting | module/site/lib/Compiler/Frontend/Peg/Grammar.php:43-49 | For every canonical grammar, parsing the printed tokens gives the grammar and uses all tokens, exactly unless a one-line rule that begins with `NewLine Indent |` is followed by a rule named `Dedent`; then parsing fails |
| GrammarRoundTrip.AClashFails | module/site/lib/Compiler/Frontend/Peg/GrammarParser.php:126-172 | That exception is met: a: NewLine Indent | x before Dedent: x is printed and not parsed |
| GrammarRoundTrip.StartTakesTheWholeInput | module/site/lib/Compiler/Frontend/Peg/GrammarParser.php:21-33 | When no token before the last that can be taken for the end marker stands right after one that can be taken for a line end or a dedent, a parse that succeeds has used the whole list |
| GrammarExact.ItemSync | module/site/lib/Compiler/Frontend/Peg/Grammar.php:402-409 | An item that is read where it is printed is canonical, and is read up to the end of its print |
| GrammarExact.AltsSync | module/site/lib/Compiler/Frontend/Peg/Grammar.php:204-210 | So are alternatives |
| GrammarExact.BlockSync | module/site/lib/Compiler/Frontend/Peg/Grammar.php:103-117 | So are the alternatives of a block, one on each line |
| GrammarExact.FewerRulesThanColons | module/site/lib/Compiler/Frontend/Peg/GrammarParser.php:126-172 | No more rules are read than there are colons |
| GrammarExact.ReadBackExactlyWhere | module/site/lib/Compiler/Frontend/Peg/Grammar.php:43-49 | Of all grammars that have a text, with names and literals at the leaves and no line that begins with the name `NewLine`, exactly the canonical ones are read back from their tokens |
| GrammarTokenizer.MeasureMargin | module/site/lib/Compiler/Frontend/Peg/GrammarTokenizer.php:99-110 | The loop over leading blanks reaches the column that tabs of 4 and form feeds define |
| GrammarTokenizer.TrackIndentation | module/site/lib/Compiler/Frontend/Peg/GrammarTokenizer.php:120-133 | The loop that pushes or pops the indentation stack gives the same stack, tokens and error as its definition by cases |
| GrammarTokenizer.ScanLexemes | module/site/lib/Compiler/Frontend/Peg/GrammarTokenizer.php:134-231 | The loop over the rest of a line follows the transition of each lexeme in turn, up to an error or an open string |
| GrammarTokenizer.Tokenize | module/site/lib/Compiler/Frontend/Peg/GrammarTokenizer.php:62-240 | The loop over the lines emits the tokens and ends in the way of the line machine from its first state; when the lexemes hold no layout tokens, no prefix of the output has more Dedents than Indents and a run that finishes has as many |
| GrammarTokenizer.DedentsKeep | module/site/lib/Compiler/Frontend/Peg/GrammarTokenizer.php:124-132 | Popping emits one Dedent for each level and keeps the stack sound; it fails exactly when the column is below the top and not on the stack |
| GrammarTokenizer.LineStepKeeps | module/site/lib/Compiler/Frontend/Peg/GrammarTokenizer.php:62-231 | One line, whatever branch it takes, keeps the stack sound or ends the run with sound output |
| GrammarTokenizer.CloseKeeps | module/site/lib/Compiler/Frontend/Peg/GrammarTokenizer.php:233-240 | The end of the file closes every block that is open |
| GrammarTokenizer.RunKeepsIndentation | module/site/lib/Compiler/Frontend/Peg/GrammarTokenizer.php:94-240 | In every state reached the stack rises strictly from 0 and is one longer than Indents less Dedents emitted, no prefix of the output has more Dedents than Indents, and a run that emits the end marker emits as many of each |
| TokenizerLaws.OneLexemeLevels | module/site/lib/Compiler/Frontend/Peg/GrammarTokenizer.php:141-231 | Each lexeme, an action among them, keeps the level equal to opening less closing bracket operators in the output, counted over the output alone |
| TokenizerLaws.LineStepLevels | module/site/lib/Compiler/Frontend/Peg/GrammarTokenizer.php:62-231 | One line keeps that, and each line break in the output continues the statement where that count before it is positive and ends it where it is not |
| TokenizerLaws.RunKeepsLevel | module/site/lib/Compiler/Frontend/Peg/GrammarTokenizer.php:62-240 | In every state of every run the level is that count; in the whole output a break is `ContinuedNewLine` exactly where the count before it is positive, but for skipped lines, which break so where it is 0; a run that finishes ends at 0 |
| TokenizerLaws.EndsByItsBrackets | module/site/lib/Compiler/Frontend/Peg/GrammarTokenizer.php:62-240 | A run through all its lines ends in an open string, or never where brackets are open, and otherwise finishes |
| TokenizerLaws.RunTellsItsLines | module/site/lib/Compiler/Frontend/Peg/GrammarTokenizer.php:62-240 | In every state reached the output without layout is the tokens of the lines so far, in order, with an operator and its code for each action |
| TokenizerLaws.ClosingGivesTheString | module/site/lib/Compiler/Frontend/Peg/GrammarTokenizer.php:77-83 | The line that closes an open string gives all of it as one token before its own lexemes |
| IndentationLaws.BlanksCount | module/site/lib/Compiler/Frontend/Peg/GrammarTokenizer.php:98-110 | Blanks in a margin count one column each |
| IndentationLaws.TabStops | module/site/lib/Compiler/Frontend/Peg/GrammarTokenizer.php:98-110 | A tab goes to the next column that is a multiple of 4 |
| IndentationLaws.FormFeedStartsOver | module/site/lib/Compiler/Frontend/Peg/GrammarTokenizer.php:98-110 | What stands before a form feed does not count |
| IndentationLaws.IndentationFinds | module/site/lib/Compiler/Frontend/Peg/GrammarTokenizer.php:123-133 | A statement is accepted exactly when its column is on the stack or beyond it; then the stack is what was below the column, and the column, with one Indent or one Dedent for each level closed |
| IndentationLaws.LineStepFinds | module/site/lib/Compiler/Frontend/Peg/GrammarTokenizer.php:62-231 | Exactly the lines that start a statement do so; continued lines, lines inside strings and brackets, comments and empty lines leave the stack and add no Indent or Dedent |
| IndentationLaws.LineGoesOn | module/site/lib/Compiler/Frontend/Peg/GrammarTokenizer.php:137-231 | The next line continues the statement exactly where this one has a backslash lexeme |
| IndentationLaws.StringGoesOn | module/site/lib/Compiler/Frontend/Peg/GrammarTokenizer.php:72-93 | An open string takes all lines that leave it open: those in single quotes only with a backslash before the line feed |
| IndentationLaws.StringIsGivenUp | module/site/lib/Compiler/Frontend/Peg/GrammarTokenizer.php:84-88 | A line that neither closes it nor leaves it open gives the whole string as one error marker |
| IndentationLaws.ThenTripleQuotesFail | module/site/lib/Compiler/Frontend/Peg/GrammarTokenizer.php:84-88 | The flag is not taken back there, so after that a string in triple quotes is an error on its second line too |
| IndentationLaws.EndOfRun | module/site/lib/Compiler/Frontend/Peg/GrammarTokenizer.php:233-240 | A run through all its lines ends its last line when that has no line feed, backslash or comment, closes its blocks and emits the end marker |
| GrammarText.ScanItem | module/site/lib/Compiler/Frontend/Peg/Grammar.php:402-409 | The characters of a printed item are split into the tokens of the item, whatever delimits it |
| GrammarText.ScanAlts | module/site/lib/Compiler/Frontend/Peg/Grammar.php:204-210 | The characters of printed alternatives are split into their tokens |
| GrammarText.RulesSteps | module/site/lib/Compiler/Frontend/Peg/GrammarTokenizer.php:94-231 | The lines of printed rules take the line machine from one rule to the next and emit the tokens of the rules |
| GrammarText.TextOfLines | module/site/lib/Compiler/Frontend/Peg/Grammar.php:43-49 | The printed text of rules is split into the lines the printer meant |
| GrammarText.LinesOfARule | module/site/lib/Compiler/Frontend/Peg/Grammar.php:103-117 | A rule is on one line exactly where name, alternatives and what joins them are less than 88 characters; otherwise the name and each alternative have a line of their own |
| GrammarText.TokensOfText | module/site/lib/Compiler/Frontend/Peg/GrammarTokenizer.php:35-245 | Were the offsets counted in characters, tokenizing the text of a canonical grammar would finish, emit its tokens and lose none of them in `peekToken` |
| GrammarOffsets.ScanFromIsScan | module/site/lib/Compiler/Frontend/Peg/GrammarTokenizer.php:141-231 | On ASCII text the loop over a line, which adds lengths in characters to offsets in bytes, finds the same lexemes as a scan of characters |
| GrammarOffsets.PrintedTokens | module/site/lib/Compiler/Frontend/Peg/GrammarTokenizer.php:35-245 | Tokenizing the text of a canonical grammar in ASCII finishes, emits its tokens and loses none of them |
| GrammarOffsets.ReadingUndoesPrinting | module/site/lib/Compiler/Frontend/Peg/Grammar.php:43-49 | Printing, splitting into lines, tokenizing and parsing give every canonical grammar in ASCII back, with the same single exception as for tokens |
| GrammarOffsets.WideLiteralIsLost | module/site/lib/Compiler/Frontend/Peg/GrammarTokenizer.php:141-148 | A rule whose one literal takes one byte more than it has characters is printed and not read back: its closing quote becomes an error marker, and the line gives no NewLine token |
| GrammarOffsets.AccentIsLost | module/site/lib/Compiler/Frontend/Peg/GrammarTokenizer.php:141-148 | So for a rule a with the literal of one letter e with an accent |
| Nullables.NullableVisitor.OfRule | module/site/lib/Compiler/Frontend/Peg/NullableVisitor.php:25-34 | A visited rule gives false; otherwise the marks and the answer are those of the walk, which visits each rule once and so ends |
| Nullables.NullableVisitor.OfRhs | module/site/lib/Compiler/Frontend/Peg/NullableVisitor.php:36-43 | The first nullable alternative ends the loop; later ones are not visited |
| Nullables.NullableVisitor.OfAlt | module/site/lib/Compiler/Frontend/Peg/NullableVisitor.php:45-52 | The first item that is not nullable ends the loop |
| Nullables.NullableVisitor.OfNamedItem | module/site/lib/Compiler/Frontend/Peg/NullableVisitor.php:86-91 | A nullable item is marked; an item marked before, in any place, also gives true |
| Nullables.NullableVisitor.OfItem | module/site/lib/Compiler/Frontend/Peg/NullableVisitor.php:54-104 | Each kind of node as dispatched: both lookaheads visit their node and are not nullable |
| Nullables.ComputeAll | module/site/lib/Compiler/Frontend/Peg/GrammarVisitor.php:56-62 | The loop over the rules leaves the marks of the whole walk |
| Nullables.NullablesAreSound | module/site/lib/Compiler/Frontend/Peg/NullableVisitor.php:25-99 | Every rule and every item marked, in any grammar however recursive, has a derivation of nothing from Opt, Repeat0, Forced and the empty string |
| Nullables.NullablesAreCompleteAtDepthZero | module/site/lib/Compiler/Frontend/Peg/NullableVisitor.php:25-99 | A rule that can match nothing without going through a rule is marked |
| Nullables.NullablesAreExact | module/site/lib/Compiler/Frontend/Peg/NullableVisitor.php:25-99 | Where a rule needs no other rule to match nothing, it is marked exactly when it is nullable |
| Nullables.NullablesMissDepthOne | module/site/lib/Compiler/Frontend/Peg/NullableVisitor.php:25-34 | In the grammar a: [x], b: a the rule b can match nothing and is not marked, since a was visited before |
| NullableClasses.BackwardMarks | module/site/lib/Compiler/Frontend/Peg/NullableVisitor.php:25-34 | Where each rule refers only to itself and to earlier rules, the marked rules are exactly those that match nothing without going through a rule |
| NullableClasses.BackwardMarksAreRightExactlyWhere | module/site/lib/Compiler/Frontend/Peg/NullableVisitor.php:25-34 | So there a rule is marked rightly exactly where it is not nullable or needs no rule to be |
| NullableClasses.ForwardMarks | module/site/lib/Compiler/Frontend/Peg/NullableVisitor.php:25-34 | Where each rule refers only to later rules, and the references to one rule are one and the same item or all under lookaheads, the marked rules are exactly the nullable ones, through however many rules |
| NullableClasses.OrderDecides | module/site/lib/Compiler/Frontend/Peg/NullableVisitor.php:25-34 | The two classes differ: b: a is not marked after a: [x] and is marked before it |
| FirstSets.FirstSetCalculator.OfAll | module/site/lib/Compiler/Frontend/Peg/FirstSetCalculator.php:47-52 | The loop over the rules leaves the sets of the whole walk |
| FirstSets.FirstSetCalculator.OfRule | module/site/lib/Compiler/Frontend/Peg/FirstSetCalculator.php:199-214 | A rule under way gives no terminals; a finished one its recorded set; otherwise the walk of its alternatives, with the empty terminal for a nullable rule |
| FirstSets.FirstSetCalculator.OfRhs | module/site/lib/Compiler/Frontend/Peg/FirstSetCalculator.php:187-193 | The terminals of all alternatives |
| FirstSets.FirstSetCalculator.OfAlt | module/site/lib/Compiler/Frontend/Peg/FirstSetCalculator.php:58-85 | The loop with its early exit and its set of terminals to remove computes the walk over the items |
| FirstSets.FirstSetCalculator.OfItem | module/site/lib/Compiler/Frontend/Peg/FirstSetCalculator.php:91-181 | Each kind of node as dispatched; a Forced node fails, since its visit returns null |
| FirstSets.GrammarsAreWellNamed | module/site/lib/Compiler/Frontend/Peg/Grammar.php:30-41 | The dictionary a grammar builds holds each rule once, under its own name |
| FirstSets.FirstSetsAreSound | module/site/lib/Compiler/Frontend/Peg/FirstSetCalculator.php:47-85 | In every grammar, recursive or not, each terminal reported for a rule has a derivation in the first-position relation |
| FirstEquations.FirstSetsAreExact | module/site/lib/Compiler/Frontend/Peg/FirstSetCalculator.php:47-214 | A rule whose first-position references are acyclic gets exactly the set of the recursive FIRST equations, however recursive the rest of the grammar is |
| FirstEquations.GroundedGrammarsFinish | module/site/lib/Compiler/Frontend/Peg/FirstSetCalculator.php:47-214 | When every rule is such a rule the calculation ends without an error |
| FirstEquations.WalkItemsExact | module/site/lib/Compiler/Frontend/Peg/FirstSetCalculator.php:58-85 | The loop over the items of a grounded alternative computes everything shown before the first item that cannot be passed over, less what its negative lookaheads show |
| FirstSolutions.SetsSolveTheirEquations | module/site/lib/Compiler/Frontend/Peg/FirstSetCalculator.php:47-214 | In every grammar, recursive or not, each set is the equation of its rule over all the sets, where only the references to rules that were under way, which include the rule and no acyclic one unless it is acyclic itself, count as empty |
| FirstSolutions.EnteredFirst | module/site/lib/Compiler/Frontend/Peg/FirstSetCalculator.php:47-214 | For a rule that no earlier rule leads to, that is the rule alone: its set solves its equation with only its references to itself empty, mutual recursion included |
| FirstSolutions.LeftRecursiveSetsAreExact | module/site/lib/Compiler/Frontend/Peg/FirstSetCalculator.php:187-214 | A rule whose first-position references are to itself or to acyclic rules gets exactly the set of its equation with the references to itself empty, from all of its alternatives, and the empty terminal when it is marked |
| FirstCycles.CycleSetIsExact | module/site/lib/Compiler/Frontend/Peg/FirstSetCalculator.php:47-214 | The first rule that is not acyclic, of a cycle through any other rules, gets exactly the set of the recursive equations of the grammar without its alternatives, and the empty terminal when it is marked |
| Flattening.FlattenKeepsDerivations | module/site/lib/Compiler/Frontend/Peg/Grammar.php:135-142 | The flattened rule can match nothing exactly when the rule can |
| Flattening.FlatteningKeepsNullables | module/site/lib/Compiler/Frontend/Peg/Grammar.php:135-142 | In a grammar with every rule flattened, as the parser generator flattens them, the same rules can match nothing |
| Flattening.FlatteningKeepsFirstSets | module/site/lib/Compiler/Frontend/Peg/Grammar.php:135-142 | And each rule has the same FIRST set, when the same rules are marked nullable |
| Flattening.FlattenKeepsFirsts | module/site/lib/Compiler/Frontend/Peg/Grammar.php:135-142 | The flattened rule has the same FIRST equation |
| DotSegments.LastPos | module/site/lib/Base/index.php:619-627 | The last place of the character, or none exactly when it is absent |
| DotSegments.RemoveDotSegments | module/site/lib/Base/Path.php:67-122 | The loop computes the rewriting of the path, on every string |
| DotSegments.RewriteRefines | module/site/lib/Base/Path.php:73-119 | From any result and any rest that are joined segments, the loop gives what the stack gives: `.` skips, `..` pops, a first segment without a slash stays |
| DotSegments.Rfc3986Refines | module/site/lib/Base/Path.php:53-66 | The algorithm of section 5.2.4 of RFC 3986 is the same stack, except that `..` also removes the first segment |
| DotSegments.AbsolutePathsAgree | module/site/lib/Base/Path.php:67-122 | On every absolute path the loop, section 5.2.4 of RFC 3986 and the segment stack agree |
| DotSegments.AbsoluteResults | module/site/lib/Base/Path.php:67-122 | The result of an absolute path is absolute, free of dot segments and no longer than the path |
| DotSegments.AgreesExactlyWhere | module/site/lib/Base/Path.php:67-122 | On any string the loop meets section 5.2.4 exactly when there is no dot, or what is left after leading ./ and ../ is not "0" and is absolute or has no .. that reaches its first segment |
| DotSegments.AbsolutePathsConform | module/site/lib/Base/Path.php:67-122 | Every absolute path satisfies that condition |
| DotSegments.ParentOfFirstSegment | module/site/lib/Base/Path.php:90-97 | a/../b gives a/b where the standard gives /b |
| DotSegments.ZeroIsLost | module/site/lib/Base/Path.php:73-76 | ./0 gives the empty string where the standard gives 0, since "0" is false in PHP |
| DotSegments.SecondRunChangesNothing | module/site/lib/Base/Path.php:67-122 | On every string a second run changes nothing |
| Paths.CombinePaths | module/site/lib/Base/Path.php:124-149 | The loop with its previous path computes the combination of any list of paths |
| Paths.CombineIsAssociative | module/site/lib/Base/Path.php:124-149 | What is combined may be combined first in part |
| Paths.RelThenCombine | module/site/lib/Base/Path.php:21-37 | The relative path exists exactly when the normalized path is empty or the normalized base is a prefix of it; combining it with the base gives the path back exactly when the base is empty, both are equal, or nothing but one slash is cut |
| Paths.RelCutsASegment | module/site/lib/Base/Path.php:21-37 | The path /ab relative to /a is empty, and combining gives /a |
| Paths.NormalizedTwice | module/site/lib/Base/Path.php:39-51 | Normalizing again changes nothing, on every string |
| Paths.NormalizedIsTheStack | module/site/lib/Base/Path.php:39-51 | An absolute path, with backslashes for slashes too, becomes its segment stack without the empty segments at its end |
| Paths.NormalizedLosesSlashes | module/site/lib/Base/Path.php:39-51 | After the dot segments exactly the slashes at the end of a path are lost |
| UriText.PartsAreRead | module/site/lib/Uri/UriParser.php:146-163 | Parts with the characters their places allow are what the expression finds in their text |
| UriText.EveryTextIsItsParts | module/site/lib/Uri/UriParser.php:146-163 | On every string the parts that the expression finds make up the string |
| UriText.AuthorityTextIsRead | module/site/lib/Uri/UriParser.php:26-50 | The text of a host and port is read back as that host and port |
| UriText.QueryTextIsRead | module/site/lib/Uri/Query.php:41-50 | The text of distinct true keys without delimiters is read back as the same arguments, in order, with null kept apart from the empty value |
| UriText.PrintedUrisAreRead | module/site/lib/Uri/Uri.php:209-290 | For well-formed components, parsing the printed text gives back the scheme, host, port, path, query and fragment, and which of authority and query are null |
| UriTextKept.PortOut | module/site/lib/Uri/UriParser.php:48 | A port comes out as it was written exactly when it has no leading zero and fits 64 bits |
| UriTextKept.AuthorityOut | module/site/lib/Uri/UriParser.php:26-50 | An authority comes out as it was written exactly when it is a host and such a port up to its end, without user information |
| UriTextKept.QueryOut | module/site/lib/Uri/UriParser.php:52-144 | A query comes out as it was written exactly when no key is empty, "0" or repeated |
| UriTextKept.TextsAreKeptExactlyWhere | module/site/lib/Uri/Uri.php:209-290 | A text is printed as it was parsed exactly when its authority and its query are |
| UriTextKept.TextsThatChange | module/site/lib/Uri/Uri.php:209-290 | //h:080 and ?a&a are not |
| UriResolution.MergesAgree | module/site/lib/Uri/Uri.php:175-187 | The merged path is the one of section 5.2.3 of RFC 3986 |
| UriResolution.ResolvesExactlyWhere | module/site/lib/Uri/Uri.php:129-200 | For every base and reference the target is the one of section 5.2.2 of RFC 3986 exactly when the path whose dot segments are removed is one on which that removal conforms |
| UriResolution.ResolvesAsRfc3986 | module/site/lib/Uri/Uri.php:129-200 | That holds for every base with a scheme and an absolute path, or an authority and no path, and every reference whose path is absolute or empty after a scheme or an authority |
| UriResolution.ResolvingAgainChangesNothingExactlyWhere | module/site/lib/Uri/Uri.php:129-200 | Against a base with a scheme, resolving the target again changes nothing exactly unless the reference has no scheme, authority and path and the base path has segments to remove |
| UriResolution.ResolvedPathsAreDotFree | module/site/lib/Uri/Uri.php:129-200 | The path of such a target is empty, or absolute and free of dot segments |
| UriObjects.Authority.ToStr | module/site/lib/Uri/Authority.php:55-81 | The buffer ends as host and port; user information is not printed without encoding |
| UriObjects.Query.FromString | module/site/lib/Uri/Query.php:18-29 | The arguments of the parsed string, marked as made from a string |
| UriObjects.Query.ToStr | module/site/lib/Uri/Query.php:41-50 | The loop and the trimming give the text of the arguments |
| UriObjects.ParseOnlyAuthority | module/site/lib/Uri/UriParser.php:26-50 | Every string gives a new authority with the fields of its one match, null fields when it does not match |
| UriObjects.ParseOnlyQuery | module/site/lib/Uri/UriParser.php:52-144 | The loop over the parts skips empty and "0" keys and lets later values replace earlier ones in place |
| UriObjects.Uri.GetAuthority | module/site/lib/Uri/Uri.php:67-72 | The object made on first use does not change what the URI shows |
| UriObjects.Uri.GetQuery | module/site/lib/Uri/Uri.php:101-106 | The object made on first use does not change what the URI shows |
| UriObjects.Uri.ToStr | module/site/lib/Uri/Uri.php:209-290 | Any choice of parts is printed as the URI with the other parts cleared; one part alone loses its delimiter |
| UriObjects.UriParser.Parse | module/site/lib/Uri/UriParser.php:146-172 | The component parsers fill a new URI with the values of the match |
| UriObjects.ResolveRelUri | module/site/lib/Uri/Uri.php:129-200 | The target filled through setters has the value of the resolution of base and reference, whose own values stay, also when they are one object or share objects |
| Services.ServiceManager.OffsetGet | module/site/lib/Base/ServiceManager.php:44-70 | The outcome and the new state are those of the recursive search; the loading table is as before, on success and on each exception |
| Services.ServiceManager.MkService | module/site/lib/Base/ServiceManager.php:99-108 | Pulls happen in order up to the first exception; a missing factory changes nothing |
| Services.ServiceManager.OffsetExists | module/site/lib/Base/ServiceManager.php:84-94 | True exactly when the id stands for a stored service or a factory |
| Services.ServiceManager.OffsetUnset | module/site/lib/Base/ServiceManager.php:72-82 | Exactly the stored service the id stands for is removed |
| Services.ServiceManager.Resolve | module/site/lib/Base/ServiceManager.php:44-48 | The loop over acyclic aliases ends at the id they stand for |
| Services.Get | module/site/lib/Base/ServiceManager.php:44-70 | The loading table is restored and no stored service is lost, whatever the outcome |
| Services.GetMakes | module/site/lib/Base/ServiceManager.php:44-70 | Everything stored by a call could be made from what was stored before, within a bounded number of nested factories |
| Services.GetSucceeds | module/site/lib/Base/ServiceManager.php:44-70 | What can be made in a bounded number of nested factories is given, when nothing under way could be made within it |
| Services.GivenExactlyWhere | module/site/lib/Base/ServiceManager.php:44-70 | A service is given exactly when every service not yet stored that can be reached from it has a factory that does not throw and lies on no cycle |
| Services.WhichException | module/site/lib/Base/ServiceManager.php:44-70 | What is not given fails as its chain of first failing pulls ends: a circular reference with that chain exactly when it returns to one of its ids, a missing service at an id without a factory, and otherwise what the factory throws |
| Services.FailuresHaveChains | module/site/lib/Base/ServiceManager.php:44-70 | Everything not given has such a chain |
| Services.ExistsAgrees | module/site/lib/Base/ServiceManager.php:84-94 | It is false exactly where asking for the service answers that it is missing itself, and true once it has been given; after an unset it is true exactly when there is a factory |
| Services.GetKeepsServices | module/site/lib/Base/ServiceManager.php:44-70 | A call leaves every stored service as it is |
| Services.SameServiceAgain | module/site/lib/Base/ServiceManager.php:49-51 | Asking again gives the same service and changes nothing |
| Services.FactoriesRunOnce | module/site/lib/Base/ServiceManager.php:44-70 | In every run of calls from a new manager, between two successful runs of the factory of one id its service was unset, and nothing is left loading |
| Orderings.Permutations | module/site/lib/Base/index.php:1302-1342 | The recursion inside the loop builds the list of orderings |
| Orderings.AllOrderings | module/site/lib/Base/index.php:1302-1342 | The list holds exactly the orderings of the elements, n! of them, and each once exactly when the elements are distinct |
| Brackets.FindByteOffsetOfPair | module/site/lib/Compiler/Frontend/index.php:15-38 | For every offset the loop gives the first one where the level comes down to 0, or -1; from a negative offset the scan goes on with the start of the text |
| Brackets.FindMultiByteOffsetOfPair | module/site/lib/Compiler/Frontend/index.php:40-67 | The loop over characters does so from where mb_substr begins; a start symbol of several characters is refused |
| Brackets.PairFromStart | module/site/lib/Compiler/Frontend/index.php:15-67 | For offsets that are not negative the two agree |
| Brackets.PairIs | module/site/lib/Compiler/Frontend/index.php:15-38 | For a bracket, the result is r exactly when the closing bracket is at r and the text between is balanced by the grammar of balanced text |
| Brackets.NoPair | module/site/lib/Compiler/Frontend/index.php:15-38 | -1 exactly when no closing bracket has balanced text before it |
| Brackets.OthersHaveNoPair | module/site/lib/Compiler/Frontend/index.php:22-32 | A symbol that is not a bracket never has a pair, since it only raises the level |
| Brackets.ReadGrammarAction | module/site/lib/Compiler/Frontend/Peg/GrammarTokenizer.php:247-283 | The loop over lines finds the place and the text that the matcher finds in the joined lines, and fails exactly when it finds none |
| NoDups.NoDupsListener.Invoke | module/site/lib/Tool/Php/NoDupsListener.php:77-86 | The exception is forwarded exactly when its lock is missing or expired; the lock is written always, then the clean-up may run |
| NoDups.NoDupsListener.Gc | module/site/lib/Tool/Php/NoDupsListener.php:111-121 | At most once in the life of a listener, exactly the locks in the shared directory that are at least two of its periods old are deleted |
| NoDups.RunIsFaithful | module/site/lib/Tool/Php/NoDupsListener.php:77-121 | In every run of calls to any listeners over one directory a lock holds the time of the last call of its id, and a lock that is gone was two periods old for the listener that cleaned up |
| NoDups.CleanedOnce | module/site/lib/Tool/Php/NoDupsListener.php:111-121 | A listener has cleaned up exactly when the random number of one of its calls was below the bound |
| NoDups.LockedExactlyWhere | module/site/lib/Tool/Php/NoDupsListener.php:77-121 | After any run a lock is there exactly when its id was seen and no clean-up since its last call, each the first such call of a listener, found it two of that periods old |
| NoDups.ForwardedExactlyWhenDue | module/site/lib/Tool/Php/NoDupsListener.php:77-121 | With a clock that never goes back, a call to a listener whose period is negative or less than twice that of every listener is forwarded exactly when no listener has seen its id or one did last more than the period ago, whatever the random numbers |
| NoDups.InvisibleExactlyWhere | module/site/lib/Tool/Php/NoDupsListener.php:77-121 | The clean-up never shows exactly when each period is negative or less than twice every period, for one listener when its period is not 0; otherwise there is a run in which it does |
| Negotiation.FindMatches | module/site/lib/App/Web/MediaTypeNegotiator.php:64-74 | The nested loops give the matches of every preferred range in order |
| Negotiation.DetectBest | module/site/lib/App/Web/MediaTypeNegotiator.php:16-62 | The loops, the reduction and the sort give the range that is detected by definition, false when there is none |
| Negotiation.MatchesExactlyWhere | module/site/lib/App/Web/MediaTypeNegotiator.php:134-187 | A range matches exactly when its type, its subtype, or the parts of it around a `+` with a wildcard in one of the two, cover the preferred ones, and all of its parameters are among the preferred ones |
| Negotiation.ScoreOfKind | module/site/lib/App/Web/MediaTypeNegotiator.php:134-187 | The score is the number of parameters and 110 for the same type and subtype, 101 for the same type with a wildcard before the same `+` part, 100 for any subtype of the same type, 10 for the same subtype of any type and 0 for any type and subtype; a wildcard after the `+` counts as the same subtype |
| Negotiation.SpecificOutranks | module/site/lib/App/Web/MediaTypeNegotiator.php:149 | With as many parameters the same type and subtype outrank a wildcard subtype, and that a wildcard type; one more parameter raises the score; and 10 more, or 100, outweigh the kind |
| Negotiation.WildcardsGiveWay | module/site/lib/App/Web/MediaTypeNegotiator.php:44-61 | A range that another outranks never decides |
| Negotiation.DetectedByTheListedType | module/site/lib/App/Web/MediaTypeNegotiator.php:16-62 | What is detected is not judged by a wildcard where its type and subtype are accepted too, unless that has at least 10 more parameters |
| Negotiation.ListedTypeCounts | module/site/lib/App/Web/MediaTypeNegotiator.php:16-62 | So text/*, text/html;q=0.1, application/json;q=0.5 accepts application/json before text/html |
| Negotiation.FirstHighestDecides | module/site/lib/App/Web/MediaTypeNegotiator.php:44-50 | Each preferred range is judged by its match with the highest score, the first of equals |
| Negotiation.DetectsNothingExactlyWhere | module/site/lib/App/Web/MediaTypeNegotiator.php:16-62 | False exactly when no range matches a preferred one |
| Negotiation.DetectsTheBest | module/site/lib/App/Web/MediaTypeNegotiator.php:51-61 | The preferred range detected has the greatest product of qualities, each judged by the match that decides for it; equals go to the lowest index |
| Negotiation.DetectsUnacceptableExactlyWhere | module/site/lib/App/Web/MediaTypeNegotiator.php:51-61 | What is detected is not acceptable, of weight 0, exactly when every preferred range that is matched has weight 0 |
| Negotiation.WeightZeroIsDetected | module/site/lib/App/Web/MediaTypeNegotiator.php:51-61 | So a range of weight 0 is detected when it is the only one |
| StringReading.StringReader.DoScan | module/site/lib/Compiler/Frontend/AsciiStringReader.php:290-305 | The register and the offsets after a match or none; only a consuming scan moves them |
| StringReading.StringReader.DoScanUntil | module/site/lib/Compiler/Frontend/AsciiStringReader.php:319-339 | The text before the match is taken, not the match |
| StringReading.StringReader.DoChar | module/site/lib/Compiler/Frontend/AsciiStringReader.php:135-145 | One character, or none at the end |
| StringReading.StringReader.DoUnread | module/site/lib/Compiler/Frontend/AsciiStringReader.php:150-157 | The offset goes back to the one before the last consuming step; without a match nothing changes |
| StringReading.ScanGivesTheHit | module/site/lib/Compiler/Frontend/AsciiStringReader.php:290-305 | A read or a look gives the text matched; only a read moves, past as much as was matched |
| StringReading.UntilStopsBeforeTheHit | module/site/lib/Compiler/Frontend/AsciiStringReader.php:319-339 | A read until a match stops where the match starts: post-match begins with the matched text, and an anchored read of it succeeds next; a look gives the same text and stays |
| StringReading.NoHitKeepsThePlace | module/site/lib/Compiler/Frontend/AsciiStringReader.php:290-339 | Without a match nothing moves, and match, pre-match and post-match are null |
| StringReading.CharsReadTheRest | module/site/lib/Compiler/Frontend/AsciiStringReader.php:135-145 | Reading characters gives the text from the offset on one by one, and then none |
| StringReading.ResetStartsOver | module/site/lib/Compiler/Frontend/AsciiStringReader.php:171-175 | `reset` leaves what giving the same text again leaves |
| StringReading.TerminateSkipsTheRest | module/site/lib/Compiler/Frontend/AsciiStringReader.php:162-166 | After `terminate` only appended text can be read |
| StringReading.ConcatAddsToTheRest | module/site/lib/Compiler/Frontend/AsciiStringReader.php:47-49 | Appended text follows what was left, and a match and its pre-match stay |
| StringReading.RunsStayInBounds | module/site/lib/Compiler/Frontend/AsciiStringReader.php:32-175 | In every run, `unread` and `concat` included, each state has 0 <= prevOffset <= offset <= length, whatever the expressions match |
| StringReading.ConsumingStepsKeepTheInput | module/site/lib/Compiler/Frontend/AsciiStringReader.php:218-231 | After a consuming step pre-match, match and post-match join to the input exactly when the match is the text at the offset |
| StringReading.AnchoredStepsKeepTheInput | module/site/lib/Compiler/Frontend/AsciiStringReader.php:218-231 | For an anchored reader they always do |
| StringReading.UnreadTakesBackExactlyWhere | module/site/lib/Compiler/Frontend/AsciiStringReader.php:150-157 | `unread` restores the offset from before a step exactly when the step consumed, or the one before it consumed nothing |
| StringReading.UnreadGoesBackTooFar | module/site/lib/Compiler/Frontend/AsciiStringReader.php:150-157 | After a read and a look, `unread` takes back what was read |
| StringReading.MatchesFromReset | module/site/lib/Compiler/Frontend/AsciiStringReader.php:290-339 | The matches of any run of consuming steps from a reset reader join to the input read so far |

## Left out

- GrammarText.Scan: splits only the characters that printed grammars use; the full regular expressions of the tokenizer, numbers and string prefixes are not modelled, and `GrammarTokenizer` takes the lexemes of a line as given.
- GrammarTokenizer.Tokenize: takes each line as a margin and a list of lexemes that hold no layout tokens; token positions, streams and file handles are not modelled. The end of file inside brackets, where the loop of the source never ends, is an ending of its own.
- PackratParser.GrammarParser.Memoize: the md5 key of index, rule and argument is taken as injective, and the token list as read already, so that peeking does not move the index.
- PackratParser.GrammarParser.MetaBody: `Peg::literalEval` of a quoted meta stays symbolic.
- GrammarOffsets.ReadingUndoesPrinting: promises nothing of text beyond ASCII, where offsets in bytes and lengths in characters disagree; `a: 'é'` is not read back. Which such texts are is not characterised.
- GrammarOffsets.ScanFrom: gives no result where an offset falls inside a character, or where the text it cuts off is no lexeme of a printed grammar.
- GrammarExact.ReadBackExactlyWhere: leaves out trees with `Repeat0`, `Repeat1` or a forced atom, which have no text of their own, and one-line rules that begin with the name `NewLine`; for canonical ones of these the clash decides.
- GrammarRoundTrip.ParsingUndoesPrinting: is about what the printer can print: it cannot print `Repeat0` and forced atoms, prints `Repeat1` as a literal `s+`, and omits types, actions, names and metas unless asked to render actions. `GrammarReading.ReadingUndoesWriting` is about all of them.
- GrammarReading.ReadingUndoesWriting: is about spellings in which no target atom is false in PHP, such as `0`, and code that is only a star does not follow a word; the parser ends the list at the first and joins the second to the word. String literals may have any prefix and quotes but end in a quote.
- GrammarSoundness.WhatIsReadIsThere: which of several readings of one token list is taken is settled by `GrammarReading.ReadingUndoesWriting`, for lists that are written.
- FirstSolutions.SetsSolveTheirEquations: for a rule on a cycle that is not entered first, says which equation its set solves and that the rules taken for empty were under way, not which of the rules on the cycle those were; a closed form is given for acyclic rules, for rules recursive only in themselves, and for the first rule of the first cycle.
- FirstCycles.CycleSetIsExact: requires that cutting the references to the one rule leaves its alternatives without cycles.
- NullableClasses.ForwardMarks: in a grammar that refers both ways, or to one rule by different items, the marks depend on the order of the walk; there marks are sound and complete at depth 0.
- UriText.ParsedUri: keys with brackets, which the source reads as nested arrays, are excluded by `FlatUri`; so are values that are not strings.
- UriObjects.ParseOnlyQuery: excludes keys with brackets in the same way.
- UriObjects.Uri.ToStr: prints without encoding; percent-encoding is not modelled.
- Paths.NormalizedTwice: is about the default, with dot segments removed; strings are taken as characters of one byte.
- Services.GivenExactlyWhere: a factory pulls a fixed list of ids and then makes its service or throws; factories that catch exceptions, and callbacks before and after creation, are not modelled. Aliases are acyclic, since the source does not end on a cycle.
- NoDups.ForwardedExactlyWhenDue: calls do not overlap in time, and the wrapped listener does not throw; files, directories and the md5 of the id are not modelled.
- Services.FactoriesRunOnce: counts factories by id; method names ignore case in PHP, so ids that differ only in case are services of their own made by the same method.
- Negotiation.DetectBest: takes parsed ranges; the header is split and its parameters are read elsewhere, and qualities are real numbers without rounding or infinities.
- StringReading.StringReader.DoScan: what a regular expression matches is a parameter; capture groups, `peek`, line starts and the reader for multi-byte strings are not modelled.
- The memo flag of a rule and the contents of nested target atoms: the code drops both, so they are part of how a grammar is written and not of the tree that is read.
- `softKeyword`, `typeComment`, `positiveLookahead` and `expectForced` of the grammar parser: nothing calls them.
- `InitialNameVisitor`, `InvalidNodeVisitor`, `CallMakerVisitor` and `KeywordCollectorVisitor`: unfinished, and resting on a parser generator that is not part of this model.
- `repr` of grammar nodes, IPv6 validation, `UriValidator`, `Path::setBasePath` and `relPath`: easy members.
- Generated code, streams, logging, sessions, routing, templates, databases, shell and dialog code: input and output, or thin wrappers.
