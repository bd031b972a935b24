# Sipster in Dafny

Sipster is a SIP user agent library in C and C++. This project models the parts of its
repository that carry state and hard invariants, and proves what they are for. Code that
changes objects or arrays in place is modelled by classes and methods over a heap; each of
these is proved against functions on values, and the theorems are lemmas about those
functions.

**Trees** (`RbShape`, `RbBalance`, `RbTree`, `SplayTree`), after `deps/include/tree.h`. A red-black
tree with parent pointers and a top-down splay tree. A ghost tree value says what the pointers
spell. A place in the tree is a path (the surroundings of a hole) with a subtree, so that each
rotation, recolouring, splice and substitution is one rewriting of a subtree, and the loops go
along the path. Insertion refines insertion into a sorted sequence, removal takes out exactly the
element given, and both leave a valid red-black tree: no red child of a red element, equal black
heights, a root that is not red, consistent parent links. The height bound of the file's comment
follows. Splaying keeps the order, terminates, and brings the key or its neighbour to the root.

**ISAAC** (`Isaac`, `IsaacSeed`, `IsaacReadable`, `IsaacFast`, `IsaacPort`), after `src/isaac`.
`Isaac` has the step as a function on states of 32-bit words, with its inverse: a round is a
bijection. `IsaacSeed` has the seeding, injective with the flag set. The simple form, the form
that is unrolled by four with byte-offset indexing, and the form on wide words are each proved to
compute those functions in place; the last keeps 64-bit words whose low halves are the state.

**Simple regular expressions** (`SimpleRegex`), after the matcher in `gtest-port.cc`. A pattern is
valid exactly if it is the text of an expression, and then of one only. The backtracking matcher
finds a match exactly if a substring is in the language of that expression. A full match does
what its comment says exactly if the pattern does not end in an escaped dollar sign: `RE::Init`
looks at the last byte only and leaves out its own anchor, so that `\$` fully matches `$x`.

**Tokens** (`Tokens`), after `src/utils.cpp`. Splitting undoes joining, the cursor advances, and
the line loop finds exactly the lines before the first empty one where CR and LF come in pairs.

**SIP** (`SipTables`, `HeaderText`, `HeaderReads`, `MessageText`, `MessageReads`, `Params`,
`SipHeaders`, `SipLists`, `SipMessages`, `SipResponses`), after `src/sip.cpp` and
`src/sip_headers.cpp`. `HeaderText` and `MessageText` have the parsers and printers as functions on
text, with the round trips. `HeaderReads` and `MessageReads` say what any text is read as, also one
that no printer of the library writes: a text is given by its parts, and every text has them. The
rest works on linked parameter records, header objects and linked header leaves: parsing builds them,
printing walks and empties them, cloning copies them, and a response is built from the clones of
the request's headers.

**Call legs** (`LegRegistry`, `SipRegistry`), after `src/sipster.cpp`. The registry is a map of maps
from Call-ID and tag to leg. Steps are leg creation, requests and responses; the theorems are about
every run of them.

**SDP** (`SdpText`, `SdpReads`, `SdpSessions`, `SdpObjects`), after `src/sdp.cpp`. Line by line round
trips, what lines that others wrote are read as, where lines belong, and printing as a normal form
of whole sessions.

What the proofs show that the code's comments and names do not say:

- A response that finds an inbound leg overwrites that leg's To tag, which is the tag it is
  registered under, so a key can stop being the local tag of its leg (`LegRegistry.KeyLost`). A step
  keeps keys local exactly if the response brings no other tag (`LegRegistry.ResponseKeeps`), and a
  run does exactly if all its steps do (`LegRegistry.RunKeyed`).
- A header line without a name is read as a CSeq header, which has the empty short name
  (`HeaderText.NamelessIsCSeq`).
- A message without headers also loses the Content-Type and Content-Length that printing adds,
  because nothing links to an appended leaf, and its body is then not read back; this happens to
  no other message (`MessageText.HeaderNeeded`, `MessageText.ResponseHeaderNeeded`).
- Printers cut their lines: a text header that does not fit into 59 characters, an SDP string line
  that does not fit into 327 and a port count behind eight digits come back shortened
  (`HeaderReads.TextSurvives`, `SdpReads.StringSurvives`, `SdpReads.PortsSurvive`).
- The body of a request is all that is left, also where its Content-Length says less, while that of
  a response is cut to it (`MessageReads.RequestRead`, `MessageReads.ResponseRead`).
- Payload types of three digits lose their last one when they are printed, except in the first
  place (`SdpText.PtsSurvive`), and an fmtp grows with each printing and parsing
  (`SdpText.FmtpGrows`).
- Printing takes the header out of every leaf, so a message prints once
  (`SipMessages.MessagePrint`).
- Parameter lookup compares prefixes (`Params.PrefixExact`), while appending compares whole names. A
  Via with a parameter rportx gains an rport (`SipResponses.RportMisread`). Where a parameter tagx
  comes before the To tag, a request with a registered tag is not found (`SipRegistry.TagMisread`),
  and one with an unknown tag is answered from the leg of another instead of with 481
  (`SipRegistry.TagConfused`; `SipRegistry.UnknownTagRequest` says exactly when).
- A successful response to a request with several To headers links one tag record into all of them,
  so that they share what follows it (`SipResponses.SharedExact`, `SipResponses.TailGained`). The
  library itself gets there only with one (`SipRegistry.FoundAnswered`).

## Model

| member | source | states |
|---|---|---|
| RbShape.RotateLeftSpelling | deps/include/tree.h:342-360 | The pointer writes of a left rotation turn the spelling of a tree into the spelling of the rotated tree, parent links included |
| RbShape.RotateRightSpelling | deps/include/tree.h:362-380 | The same for a right rotation |
| RbShape.SpliceLink | deps/include/tree.h:579-590 | Which links change when an element with at most one child is replaced by that child, node by node |
| RbShape.SubstituteLink | deps/include/tree.h:559-570 | Which links change when the successor takes the place of a removed element, node by node |
| RbShape.Locate | deps/include/tree.h:531-596 | Every element of a tree sits at the root of a subtree in some surroundings that spell the whole tree |
| RbBalance.PlugBalanced | deps/include/tree.h:53-62 | A tree is balanced exactly if the subtree is, its surroundings are for its black height, and no red meets red between them |
| RbBalance.RedBelowRed | deps/include/tree.h:408-449 | Where the insertion loop goes on, there is a black grandparent above the red parent and balanced surroundings above that |
| RbBalance.RedUncle | deps/include/tree.h:416-421 | Recolouring parent, uncle and grandparent moves the only possible violation two levels up |
| RbBalance.BlackUncleLeft | deps/include/tree.h:422-429 | With a black uncle, a double or single rotation with recolouring leaves nothing wrong, parent on the left |
| RbBalance.BlackUncleRight | deps/include/tree.h:438-445 | The mirror image |
| RbBalance.RedSiblingLeft | deps/include/tree.h:460-464 | A red sibling has black children, and recolouring with a rotation keeps the deficit below a black sibling |
| RbBalance.BlackNephewsLeft | deps/include/tree.h:465-471 | With two black nephews, recolouring the sibling moves the deficit to the parent |
| RbBalance.NearNephewLeft | deps/include/tree.h:473-482 | With a red near nephew only, a rotation makes the far nephew red and keeps the deficit |
| RbBalance.FarNephewLeft | deps/include/tree.h:483-489 | With a red far nephew, recolouring with a rotation removes the deficit |
| RbBalance.RedSiblingRight | deps/include/tree.h:493-497 | The mirror image of the red sibling case |
| RbBalance.BlackNephewsRight | deps/include/tree.h:498-504 | The mirror image of the black nephews case |
| RbBalance.NearNephewRight | deps/include/tree.h:506-515 | The mirror image of the near nephew case |
| RbBalance.FarNephewRight | deps/include/tree.h:516-522 | The mirror image of the far nephew case |
| RbBalance.RemoveDone | deps/include/tree.h:526-528 | When the removal loop ends, at a red child or at the root, painting that child black gives a red-black tree |
| RbBalance.SpliceBalance | deps/include/tree.h:579-593 | Splicing out an element leaves its surroundings one black too high exactly if the element was black |
| RbBalance.RenameBalance | deps/include/tree.h:557-570 | Balance does not depend on which element stands at a place, so the substituted successor keeps it |
| RbBalance.HeightBound | deps/include/tree.h:53-62 | Two to the height is at most the square of the size plus one: the height is at most 2 lg (n+1) |
| RbTree.SuccessorOrder | deps/include/tree.h:541-570 | The leftmost element of the right subtree is the next in order, and putting it in the place of the removed one gives the old order without it |
| RbTree.SearchEnd | deps/include/tree.h:646-665 | Where a search falls off the tree, the key is absent and the last element passed on the left is the least one above it |
| RbTree.NextByPosition | deps/include/tree.h:668-688 | The element found through the right subtree or the ancestors is the next in order |
| RbTree.PrevByPosition | deps/include/tree.h:690-709 | The same for the previous element |
| RbTree.SortedInsert | deps/include/tree.h:598-626 | Hanging an element where the search ended is inserting it at its place in the sorted sequence |
| RbTree.SortedWithout | deps/include/tree.h:530-596 | Taking an element out of a sorted sequence keeps it sorted and keeps all the others |
| RbTree.Head.Recolor | deps/include/tree.h:333-337 | Painting one element changes that colour in the tree value and no link |
| RbTree.Head.RotateLeft | deps/include/tree.h:342-360 | In place, the subtree is rotated, order and elements stay, links stay consistent |
| RbTree.Head.RotateRight | deps/include/tree.h:362-380 | The mirror image |
| RbTree.Head.InsertColor | deps/include/tree.h:407-449 | From a tree whose only flaw is a red element that may be below a red one, the loop ends in a red-black tree with the same order and elements |
| RbTree.Head.Insert | deps/include/tree.h:598-626 | Returns the element with an equal key and changes nothing at all, or null, and then the order is the old one with the element at its sorted place and the tree is red-black |
| RbTree.Head.RemoveColor | deps/include/tree.h:450-528 | From a tree that is one black short at a place, the loop ends in a red-black tree with the same order and elements |
| RbTree.Head.SpliceOut | deps/include/tree.h:579-590 | In place, an element with at most one child is replaced by that child |
| RbTree.Head.Substitute | deps/include/tree.h:559-570 | In place, an element takes over the links, colour and position of another |
| RbTree.Head.RemoveInner | deps/include/tree.h:539-578 | An element with two children is replaced by its successor, and the tree is red-black again |
| RbTree.Head.Remove | deps/include/tree.h:530-596 | The tree is red-black and its order is the old one without exactly that element |
| RbTree.Head.Find | deps/include/tree.h:628-645 | The element with an equal key, or null exactly if there is none |
| RbTree.Head.NFind | deps/include/tree.h:646-666 | The least element not below the key, or null exactly if all are below |
| RbTree.Head.Next | deps/include/tree.h:668-688 | The next element in order, or null at the end |
| RbTree.Head.Prev | deps/include/tree.h:690-709 | The previous element in order, or null at the start |
| RbTree.Head.MinMax | deps/include/tree.h:711-724 | The first or last element in order, or null in an empty tree |
| RbTree.Head.ForEach | deps/include/tree.h:738-741 | The minimum and repeated next visit each element once, in ascending order |
| RbTree.Head.HeightAtMost | deps/include/tree.h:53-62 | The height bound for every tree that the operations can reach |
| SplayTree.TurnedOrder | deps/include/tree.h:88-98 | A rotation at the root of the middle part keeps order, elements and size |
| SplayTree.LinkedOrder | deps/include/tree.h:100-110 | Handing the root and one of its subtrees to the smaller or larger side keeps order and elements |
| SplayTree.AssembledOrder | deps/include/tree.h:112-117 | Assembling keeps the order: the smaller side and the left subtree come before the root, the right subtree and the larger side after |
| SplayTree.AssembledSpelt | deps/include/tree.h:112-117 | The pointer writes of assembling spell the assembled tree |
| SplayTree.AssembledSplayed | deps/include/tree.h:209-242 | A loop that stopped leaves the key or a neighbour of it at the root: all to the left is below the key, all to the right above |
| SplayTree.InsertAtRoot | deps/include/tree.h:165-186 | Splitting a splayed tree at its root around the new element gives the sorted insertion |
| SplayTree.RemoveAtRoot | deps/include/tree.h:189-206 | Removing the root of a splayed tree takes exactly the key out of the order |
| SplayTree.MaximumAtRoot | deps/include/tree.h:198-203 | A tree splayed for a key above all of its own has no right subtree, so the rest can hang there |
| SplayTree.Head.RotateRight | deps/include/tree.h:88-92 | In place, the middle part is rotated and both sides stay |
| SplayTree.Head.RotateLeft | deps/include/tree.h:94-98 | The mirror image |
| SplayTree.Head.LinkLeft | deps/include/tree.h:100-104 | In place, the root with its right subtree goes to the larger side, through its leftmost element |
| SplayTree.Head.LinkRight | deps/include/tree.h:106-110 | In place, the root with its left subtree goes to the smaller side, through its rightmost element |
| SplayTree.Head.Assemble | deps/include/tree.h:112-117 | In place, the three parts become one tree of the same elements |
| SplayTree.Head.Splay | deps/include/tree.h:209-242 | Terminates, keeps order and elements, and leaves the key or a neighbour at the root |
| SplayTree.Head.SplayMinMax | deps/include/tree.h:247-277 | The same for the least or greatest element |
| SplayTree.Head.Insert | deps/include/tree.h:165-186 | The element with an equal key, at the root, with nothing else changed in the order, or null and the sorted insertion with the new element at the root |
| SplayTree.Head.Remove | deps/include/tree.h:189-206 | The order without the key; the argument is returned exactly if the key was there |
| SplayTree.Head.Find | deps/include/tree.h:128-137 | The element with an equal key, at the root, or null exactly if there is none; the order stays |
| SplayTree.Head.Next | deps/include/tree.h:139-151 | The next element in order, or null; the order stays |
| SplayTree.Head.MinMax | deps/include/tree.h:153-158 | The first or last element in order, or null in an empty tree |
| SplayTree.Head.ForEach | deps/include/tree.h:292-295 | Visits every element once, in order, and keeps the order, although each step splays |
| Isaac.ShiftInverse | src/isaac/rand.c:36-39 | The four mixing shifts can be undone |
| Isaac.BackStepUndoes | src/isaac/rand.c:20-26 | The inverse step after a step recovers memory and both accumulators |
| Isaac.StepUndoes | src/isaac/rand.c:20-26 | A step after the inverse step does too: every state has exactly one predecessor |
| Isaac.RoundBijective | src/isaac/rand.c:28-49 | A round of 256 steps with its counter has a two-sided inverse |
| Isaac.RoundInjective | src/isaac/rand.c:28-49 | No two states ever merge |
| IsaacSeed.UnmixLineUndoes | src/isaac/rand.c:52-62 | Each of the eight lines of the mix macro can be undone |
| IsaacSeed.MixInjective | src/isaac/rand.c:52-62 | No two groups of eight words mix to the same |
| IsaacSeed.PassInjective | src/isaac/rand.c:85-92 | A seeding pass, which keeps only its outputs, determines its 256 inputs |
| IsaacSeed.SecondPassInjective | src/isaac/rand.c:85-101 | Both passes together determine the seed, although the second starts from where the first ended |
| IsaacSeed.SeedInjective | src/isaac/rand.c:66-116 | With the flag set, two different seeds never give the same state after seeding and the first round |
| IsaacSeed.MixMacro | src/isaac/rand.c:52-62 | The assignments of the macro compute the mix function |
| IsaacSeed.ScrambleWords | src/isaac/rand.c:75-80 | The golden ratio mixed four times |
| IsaacSeed.Store | src/isaac/rand.c:90-91 | Eight words go to eight places and nothing else changes |
| IsaacSeed.Spread | src/isaac/rand.c:94-101 | The second pass in place, reading words that the loop has not yet overwritten |
| IsaacReadable.Generator.OneStep | src/isaac/readable.c:30-50 | One turn of the loop is one step, and writes one result |
| IsaacReadable.Generator.Isaac | src/isaac/readable.c:23-51 | The loop computes a round and its 256 results |
| IsaacReadable.Generator.Fill | src/isaac/readable.c:80-90 | The first pass, seeded or not |
| IsaacReadable.Generator.RandInit | src/isaac/readable.c:67-106 | Seeding ends in the round after the specified start state, for both flag values |
| IsaacFast.IndMeans | src/isaac/rand.c:19 | The byte-offset access reads the word that the modulo index names |
| IsaacFast.RandCtx.RngStep | src/isaac/rand.c:20-26 | The macro with its two cursors is one step of the simple form |
| IsaacFast.RandCtx.FourSteps | src/isaac/rand.c:36-39 | The unrolled body is four steps |
| IsaacFast.RandCtx.Isaac | src/isaac/rand.c:28-49 | Both half loops together compute the round and its 256 results |
| IsaacFast.RandCtx.FillSeeded | src/isaac/rand.c:85-92 | The first pass with a seed |
| IsaacFast.RandCtx.FillMessy | src/isaac/rand.c:106-111 | The first pass without a seed |
| IsaacFast.RandCtx.RandInit | src/isaac/rand.c:66-116 | Seeding ends in the round after the specified start state, for both flag values |
| IsaacFast.RandCtx.Draw | src/isaac/rand.h:49-52 | Each draw is the next word of the whole stream, through every refill and the wrap of the counter below zero |
| IsaacFast.RandCtx.Draws | src/isaac/rand.h:49-52 | Any number of draws after seeding gives the stream from its start |
| IsaacFast.Agree | src/isaac/rand.c:28-116 | From equal seeds, the simple and the fast form hold the same state and results |
| IsaacPort.LowShifted | src/isaac/randport.c:37-40 | The shifts on wide words, masked where they go right, agree with those on 32 bits |
| IsaacPort.LowMixShift | src/isaac/randport.c:53-63 | The same for the shifts of the mix macro |
| IsaacPort.LowStep | src/isaac/randport.c:21-27 | A step on unmasked wide words, seen modulo 2^32, is the step on 32-bit words, and the result word is exact |
| IsaacPort.WideMix | src/isaac/randport.c:53-63 | The mix on wide words is the mix modulo 2^32 |
| IsaacPort.PortCtx.RngStep | src/isaac/randport.c:21-27 | The macro in place simulates one step |
| IsaacPort.PortCtx.FourSteps | src/isaac/randport.c:37-40 | The unrolled body simulates four steps |
| IsaacPort.PortCtx.Isaac | src/isaac/randport.c:29-50 | The round modulo 2^32; every result word equals the 32-bit one exactly |
| IsaacPort.PortCtx.RandInit | src/isaac/randport.c:66-121 | Seeding simulates the 32-bit seeding, for both flag values |
| IsaacPort.PortCtx.Draw | src/isaac/rand.h:49-52 | Each draw is exactly the next word of the 32-bit stream |
| IsaacPort.Agree | src/isaac/randport.c:66-121 | From equal seeds, the wide form agrees with the fast one modulo 2^32 and exactly in its results |
| SimpleRegex.PassesMeans | test/googletest-release-1.7.0/src/gtest-port.cc:257-311 | A pattern is valid exactly if it is the text of an expression of the grammar, and of that one only |
| SimpleRegex.ValidateRegex | test/googletest-release-1.7.0/src/gtest-port.cc:257-311 | The loop decides validity, null included, and never reads beyond the terminator |
| SimpleRegex.HeadsFrom | test/googletest-release-1.7.0/src/gtest-port.cc:347-373 | A match at the head is a match of the first item with a prefix and of the rest with the rest |
| SimpleRegex.MatchRepetitionAndRegexAtHead | test/googletest-release-1.7.0/src/gtest-port.cc:320-342 | True exactly if some prefix is in the repeated item's language and the rest matches at the head |
| SimpleRegex.MatchRegexAtHead | test/googletest-release-1.7.0/src/gtest-port.cc:347-373 | True exactly if a prefix of the string is in the language, the whole string under a final dollar |
| SimpleRegex.MatchesFrom | test/googletest-release-1.7.0/src/gtest-port.cc:383-396 | A match anywhere is a match at the head of some suffix, or of the whole string under a caret |
| SimpleRegex.MatchRegexAnywhere | test/googletest-release-1.7.0/src/gtest-port.cc:383-396 | True exactly if a substring, anchored as the expression says, is in its language |
| SimpleRegex.RE.constructor | test/googletest-release-1.7.0/src/gtest-port.cc:417-448 | The object holds the pattern, its validity and the pattern for full matches |
| SimpleRegex.RE.PartialMatch | test/googletest-release-1.7.0/src/gtest-port.cc:412-414 | True exactly if the pattern is valid and matches somewhere |
| SimpleRegex.RE.FullMatch | test/googletest-release-1.7.0/src/gtest-port.cc:406-408 | True exactly if the pattern is valid and its anchored form matches |
| SimpleRegex.FullParse | test/googletest-release-1.7.0/src/gtest-port.cc:436-447 | The anchored form of a pattern is anchored at both ends unless the pattern ends in an escaped dollar |
| SimpleRegex.FullMatchExact | test/googletest-release-1.7.0/src/gtest-port.cc:404-448 | Full matching is membership of the whole string for all strings exactly if the pattern does not end in an escaped dollar |
| SimpleRegex.DollarFails | test/googletest-release-1.7.0/src/gtest-port.cc:444-445 | The pattern of an escaped dollar fully matches a dollar followed by x |
| Tokens.FindFirstOf | src/utils.cpp:7-25 | The first place from a position on with one of the delimiters, or the end mark |
| Tokens.NextToken | src/utils.cpp:7-25 | The token up to the first delimiter and the cursor after it, with the cases of a cursor past the end and of an empty token |
| Tokens.GetRest | src/utils.cpp:27-40 | The rest of the input, and the end mark unless there was none |
| Tokens.Advances | src/utils.cpp:7-25 | After a token that is not empty, the cursor is strictly further on |
| Tokens.TokAt | src/utils.cpp:7-25 | Splitting undoes joining of two texts |
| Tokens.SplitJoined | src/utils.cpp:7-25 | Splitting undoes joining for any number of delimiter-free, non-empty tokens |
| Tokens.LinesAre | src/sip.cpp:168-205 | Where CR and LF come only in pairs, the loop yields exactly the lines before the first empty one, with its cursor on the byte after |
| Tokens.LinesRead | src/sip.cpp:168-205 | Of lines joined by CRLF with an empty line and a body, the loop yields the lines and stops at the body |
| SipTables.FindMethod | src/sip.cpp:23-29 | The method with that name, and no earlier one has it, or none exactly if no method has it |
| SipTables.MethodFound | src/sipster/sip_enums.h:216-217 | Every method is found by its name |
| SipTables.CodesAscend | src/sipster/sip_enums.h:219 | The status codes ascend, so no two are equal |
| SipTables.StatusFound | src/sipster/sip_enums.h:219 | Every status is found by its code |
| SipTables.FindStatus | src/sip.cpp:87-94 | The status with that code, and no earlier one has it, or none exactly if no status has it |
| SipTables.PhraseClean | src/sipster/sip_enums.h:220 | No reason phrase has a line break, and none is longer than 34 |
| HeaderText.FindHeader | src/sip.cpp:110-118 | The first entry of the table whose name or short name it is, or none exactly if there is none |
| HeaderText.NamesDiffer | src/sip_headers_private.h:59-77 | No two entries share a name, nor is a name another's short name |
| HeaderText.NameFound | src/sip_headers_private.h:59-77 | Every header is found by the name it prints |
| HeaderText.NamelessIsCSeq | src/sip_headers_private.h:59-77 | The empty name finds CSeq |
| HeaderText.AtoiDigits | src/sip_headers.cpp:352-373 | Reading a printed number gives it back |
| HeaderText.ParamsReadBack | src/sip_headers.cpp:31-58 | Parsing a printed parameter list gives it back, order and valueless parameters included |
| HeaderText.HeaderReadBack | src/sip.cpp:103-129 | Parsing a printed header of any kind gives it back, and it is one line |
| HeaderText.PrintedFits | src/sip.cpp:103-129 | A printed header fits the buffers of the parser |
| HeaderReads.NumberRead | src/sip_headers.cpp:352-362 | The number of a text is that of its digits, counted from the last, with its sign, whatever white space comes before and whatever text after; without digits it is 0 |
| HeaderReads.NumberParts | src/sip_headers.cpp:352-362 | Every text has those parts |
| HeaderReads.WrittenRead | src/sip_headers.cpp:38-40 | A parameter may be a name alone, a name and a value, or these and anything behind a second equals sign: the first has an empty value, the second equals sign ends a value, names and values are cut to their buffers |
| HeaderReads.WrittenParts | src/sip_headers.cpp:38-40 | Every text between semicolons has one of these forms |
| HeaderReads.ListRead | src/sip_headers.cpp:31-58 | Any list of such parameters is read in order, up to the first empty one |
| HeaderReads.ListParts | src/sip_headers.cpp:31-58 | Every text is such a list |
| HeaderReads.HeaderUnderstood | src/sip.cpp:103-120 | A line gives a header exactly if a header other than Call-Info and Session-ID has the part before the colon as its name or short name |
| HeaderReads.FullNames | src/sip_headers_private.h:59-77 | The names of section 20 of RFC 3261 lead to their headers |
| HeaderReads.CompactForms | src/sip_headers_private.h:59-77 | So do the compact forms |
| HeaderReads.FieldsByHeader | src/sip_headers_private.h:59-77 | Which headers have an address, a number, a sequence number or a text, for any line that is understood |
| HeaderReads.AddressRead | src/sip_headers.cpp:100-114 | An address or content type with any written parameters, or none |
| HeaderReads.ViaRead | src/sip_headers.cpp:145-165 | A Via with any written parameters, or none, or with no address |
| HeaderReads.ViaLineRead | src/sip.cpp:103-120 | The same of a whole Via line, by either of its names and with any white space |
| HeaderReads.CSeqRead | src/sip_headers.cpp:199-219 | The number and the method of that name, none exactly if no method has it |
| HeaderReads.TextRead | src/sip_headers.cpp:321-331 | A text is cut to its buffer and a Call-ID is not |
| HeaderReads.NumberFieldRead | src/sip_headers.cpp:352-362 | A number header has the number of its first word modulo 2^32 |
| HeaderReads.LinePrinted | src/sip_headers.cpp:116-132 | Any header prints the beginning of its line, cut to the buffer of its printer |
| HeaderReads.TextSurvives | src/sip_headers.cpp:333-345 | A text header comes back cut to the room in its printed line, so it survives exactly if the line fits |
| MessageText.RequestLineReadBack | src/sip.cpp:9-41 | Parsing a printed request line gives back method, URI and protocol |
| MessageText.StatusLineReadBack | src/sip.cpp:69-101 | Parsing a printed status line gives back protocol and status |
| MessageText.RequestRoundTrip | src/sip.cpp:157-304 | Parsing a printed request gives back its line, its headers in order followed by the Content-Type and Content-Length that were missing, and its body; the content is the one sent, type included, exactly where ContentBack says |
| MessageText.ResponseRoundTrip | src/sip.cpp:306-457 | The same for responses, with the method taken from the last CSeq header |
| MessageText.HeaderNeeded | src/sip.cpp:157-304 | Exactly the requests with a header keep a Content-Length, and so their body, through printing and parsing; the request line always survives |
| MessageText.ResponseHeaderNeeded | src/sip.cpp:306-457 | The same for responses |
| MessageText.PrintedOk | src/sip.cpp:229-304 | With the headers that printing adds, all are printable and the last Content-Length is the length of the body |
| MessageText.PrintedMeans | src/sip.cpp:238-257 | What printing adds: behind the headers, exactly where there was none, one Content-Type with the type of the body and one Content-Length with its length or 0 |
| MessageText.ContentBack | src/sip.cpp:157-304 | The content that comes back is the one that was sent, type included, exactly if there is none, or it has data and no Content-Type among the headers says otherwise |
| MessageReads.RequestLineRead | src/sip.cpp:9-41 | Any request line by its words; it is refused exactly if no method has the first as its name |
| MessageReads.ShortRequestLine | src/sip.cpp:9-41 | The same where words are missing |
| MessageReads.StatusLineRead | src/sip.cpp:69-101 | Any status line by its code alone, whatever the phrase; it is refused exactly if the code is not in the table |
| MessageReads.RequestRead | src/sip.cpp:157-227 | Any request by its lines: refused exactly if the first is, lines that are not understood passed over, a body exactly if the last Content-Length is positive and no more than there is, and then all that is left |
| MessageReads.ResponseRead | src/sip.cpp:306-380 | Any response by its lines: refused exactly if one is not understood; the body is cut to the last Content-Length |
| MessageReads.SomeJoined | src/sip.cpp:176-205 | The headers of two runs of lines are those of the first, then those of the second |
| MessageReads.BodyTextMeans | src/sip.cpp:292-297 | As many characters of the body as its length says, zeros where it has fewer |
| MessageReads.FirstLinePrinted | src/sip.cpp:131-147 | The first line of a printed message is the beginning of the line, at most 149 characters |
| Params.PutMeans | src/sip_headers.cpp:541-569 | Appending keeps names distinct, replaces an equal name in its place or adds at the end, and leaves the other entries where and what they are |
| Params.ParameterGet | src/sip_headers.cpp:403-416 | The first parameter whose name starts with the given one, or null |
| Params.PrefixExact | src/sip_headers.cpp:403-416 | A lookup finds the parameter of the name itself, or that there is none, exactly if no earlier name begins with the name |
| Params.ParseParams | src/sip_headers.cpp:31-58 | The linked list that is built holds exactly the parameters in the text, in order, flags with an empty value: the meaning of the list for every way to take the text for one |
| Params.PrintParams | src/sip_headers.cpp:121-125 | The loop prints the list in order |
| Params.ParametersClone | src/sip_headers.cpp:628-655 | The copy is a list of fresh records with the same contents |
| Params.Append | src/sip_headers.cpp:541-569 | The relinking in place replaces the record of that name or puts the new one at the end, together with the records that it leads to; only records of that list change |
| SipHeaders.AddrParse | src/sip_headers.cpp:100-114 | A fresh object whose value is what HeaderReadBack reads back: an address header |
| SipHeaders.ViaParse | src/sip_headers.cpp:145-165 | A fresh object whose value is what HeaderReadBack reads back, and what ViaRead says of any written Via: a Via header, with its address looked for after the protocol |
| SipHeaders.CSeqParse | src/sip_headers.cpp:199-219 | A fresh object whose value is what HeaderReadBack reads back: a CSeq header, with no method where the name is unknown |
| SipHeaders.CallIdParse | src/sip_headers.cpp:240-250 | A fresh object whose value is what HeaderReadBack reads back: a Call-ID header |
| SipHeaders.TypeParse | src/sip_headers.cpp:271-285 | A fresh object whose value is what HeaderReadBack reads back: a Content-Type header |
| SipHeaders.StringParse | src/sip_headers.cpp:321-331 | A fresh object whose value is what HeaderReadBack reads back: a text header, cut to its buffer |
| SipHeaders.UintParse | src/sip_headers.cpp:352-362 | A fresh object whose value is what HeaderReadBack reads back: a number header |
| SipHeaders.HeaderParse | src/sip.cpp:103-120 | Dispatches through the table; null exactly where the line is not understood |
| SipHeaders.HeaderPrint | src/sip.cpp:122-129 | Dispatches through the table and prints the header's value |
| SipHeaders.HeaderClone | src/sip_headers.cpp:613-618 | A fresh object with fresh parameters and the same value, so changing one leaves the other alone |
| SipHeaders.HeaderAppendParameter | src/sip_headers.cpp:541-569 | The header's parameters become the put of the parameter, and nothing else changes |
| SipHeaders.HeaderAppendShared | src/sip_headers.cpp:541-569 | The same for a record that already leads to others: they are kept where its name is new and dropped where it takes a place |
| SipLists.AppendNewHeader | src/sip_headers.cpp:424-441 | The new leaf is linked behind the last one, with its index modulo 65536 and the count of the list |
| SipLists.HeaderList.AppendLast | src/sip_headers.cpp:424-441 | As the printer calls it: where there is no first leaf, the new leaf hangs nowhere |
| SipLists.HeaderList.Append | src/sip_headers.cpp:424-441 | The list of values grows by the header's value at the end |
| SipLists.HeaderList.GetHeader | src/sip_headers.cpp:457-485 | A fresh list of linked copies that lead to exactly the headers of that kind in order and share their count, or null exactly if there is none |
| SipLists.CountFirst | src/sip_headers.cpp:457-485 | There is no header of a kind exactly if none is first |
| SipMessages.RequestParseLine | src/sip.cpp:9-41 | The request line, or an error for an unknown method |
| SipMessages.ResponseParseLine | src/sip.cpp:69-101 | The status line, or an error for an unknown code |
| SipMessages.RequestHeaders | src/sip.cpp:176-205 | The loop appends every understood line's header and keeps the last Content-Length and Content-Type |
| SipMessages.ResponseHeaders | src/sip.cpp:325-358 | The same for responses, where a line that is not understood ends the loop |
| SipMessages.RequestParse | src/sip.cpp:157-227 | Line, header objects in order, and the body if the length allows, or the error code |
| SipMessages.ResponseParse | src/sip.cpp:306-380 | The same for responses |
| SipMessages.Complete | src/sip.cpp:238-262 | Adds what PrintedMeans says is missing and computes the size of the buffer |
| SipMessages.RoomEnough | src/sip.cpp:232-266 | The buffer holds the whole message wherever no printed header has more than 198 characters and the index of the last leaf has not wrapped |
| SipMessages.PrintHeaders | src/sip.cpp:274-288 | The loop writes every header into the buffer in order, and takes it out of its leaf |
| SipMessages.MessagePrint | src/sip.cpp:229-304 | First line, headers, empty line and body, within the buffer; no leaf keeps a header |
| SipMessages.RequestPrint | src/sip.cpp:229-304 | The printed text of the request, with the headers of PrintedMeans |
| SipMessages.ResponsePrint | src/sip.cpp:382-457 | The printed text of the response |
| SipMessages.Resend | src/sip.cpp:157-304 | Printing a request and parsing the text gives a new object with the same line, headers and body, up to what printing adds; the content is equal exactly where ContentBack says |
| SipMessages.ResendResponse | src/sip.cpp:306-457 | The same for responses, the method being that of the last CSeq header |
| SipResponses.SucceedsMeans | src/sip.cpp:491-494 | The switch over statuses is exactly the range from 200 to 299 |
| SipResponses.EditVia | src/sip.cpp:503-514 | On the clone only: rport gets the port exactly where the lookup finds a parameter |
| SipResponses.EditTo | src/sip.cpp:515-520 | On the clone only: the tag record goes to the place of the tag, or to the end with what it leads to |
| SipResponses.CreateResponse | src/sip.cpp:478-564 | The response has the headers of the reply function, of which ReplyDescribes, SharedExact and RportAnswered say what they are; one tag record is linked into every To header, and the request's headers and parameters are what they were |
| SipResponses.AnswerTo | src/sip.cpp:515-520 | Linking the tag record into one more To clone leads every To header before it to what now follows the record, and changes no other header |
| SipResponses.SharedExact | src/sip.cpp:491-520 | The headers are those asked for exactly if the response is no success or what follows the tag, nothing where there is none, is the same in every To header of the request |
| SipResponses.TailGained | src/sip.cpp:515-520 | A To without parameters gains those that follow the tag of another To |
| SipResponses.RportMisread | src/sip.cpp:503-514 | A Via whose only parameter is called rportx gains an rport |
| SipResponses.AnswersFollow | src/sip.cpp:495-523 | Header by header, in order and without any Contact: Via differs in rport only and only where it had one, To in its tag only and only on success, every other header is equal. This holds of a header exactly if it is no Via without rport that has a parameter whose name begins with rport; such a Via gains an rport |
| SipResponses.ReplyDescribes | src/sip.cpp:533-561 | The first Content-Length is the length of the body or 0, the first Content-Type its type; the reply is the answered headers but for these, as DescribedTells says; all other headers are those of AnswersFollow, where what follows the tag is the same in every To |
| SipResponses.DescribedTells | src/sip.cpp:528-561 | Without a body, only the first Content-Length is set to 0, or one is added at the end; with a body, only the first Content-Type and the first Content-Length are set, each added at the end exactly where there was none |
| SipResponses.RportAnswered | src/sip.cpp:503-514 | A Via line with a bare rport, wherever it stands in the request, has the port there in the response, and its address and all other parameters as they were |
| LegRegistry.AddKeeps | src/sipster.cpp:60-79 | Adding a leg registers its key and no other and moves no leg; keys stay local exactly if the key is the leg's local tag or was taken |
| LegRegistry.ResponseKeeps | src/sipster.cpp:332-348 | A response keeps what is registered, and keeps keys local exactly if its From tag leads nowhere or to an outbound leg, or its To tag is absent or equal to its From tag |
| LegRegistry.ResponseTells | src/sipster.cpp:332-348 | Where a response leads to a leg and has a To tag, that leg has it from then on, inbound or outbound, and is otherwise as it was, like all other legs and the map; where it leads nowhere or has no To tag nothing changes |
| LegRegistry.ResponseVerdict | src/sipster.cpp:215-274 | When a response is malformed, not found, without a leg, or found, and with which leg |
| LegRegistry.RequestVerdict | src/sipster.cpp:144-213 | When a request is malformed, not found or found, with which leg, and that it changes the registry exactly if it opens one |
| LegRegistry.CreationAdds | src/sipster.cpp:33-128 | A new leg comes behind the others with its tags cut to their buffers; its key leads to it unless it was taken, and all other keys where they led |
| LegRegistry.StepKeeps | src/sipster.cpp:60-348 | Every step keeps the invariant and what is registered, and keeps keys local exactly if it is proper |
| LegRegistry.RunKeeps | src/sipster.cpp:60-348 | In every run, a registered Call-ID and tag never changes its leg, no two share one, and while events are proper each key is its leg's local tag |
| LegRegistry.RunKeyed | src/sipster.cpp:60-348 | Each key is its leg's local tag after every prefix of a run exactly if each event of the run is proper |
| LegRegistry.KnownTagFound | src/sipster.cpp:144-213 | After any run, a request with a tag that was registered before it resolves to that leg and adds nothing, whatever its From header |
| LegRegistry.UnknownTagRefused | src/sipster.cpp:144-213 | A request with an unknown To tag adds nothing and is not found, whatever its From header |
| LegRegistry.NewLegFound | src/sipster.cpp:144-213 | A request with no To tag adds exactly one leg under the generated tag, and after any run a request with that tag finds it |
| LegRegistry.KeyLost | src/sipster.cpp:332-348 | A run of two steps after which a key is not its leg's local tag |
| SipRegistry.TagExact | src/sip_headers.cpp:403-416 | The tag that is read from a header is its tag exactly if no earlier parameter name begins with tag, or the first such parameter has the tag's value |
| SipRegistry.TaggedRequest | src/sipster.cpp:144-213 | After any run, a message whose To tag was registered resolves to that leg and adds nothing, exactly under that condition |
| SipRegistry.UnknownTagRequest | src/sipster.cpp:144-213 | A message whose To tag is not registered adds nothing, whatever its From headers. It is not found exactly if the value of the first parameter whose name begins with tag is not registered either; else it resolves to the leg of that value |
| SipRegistry.UntaggedRequest | src/sipster.cpp:165-195 | A message without a To tag is one that opens a leg exactly if no parameter name of its To begins with tag |
| SipRegistry.RequestMalformed | src/sipster.cpp:144-195 | A message is malformed exactly if it has not one Call-ID and one To header, or no To tag is read from it and it has not one From header |
| SipRegistry.ResponseMalformed | src/sipster.cpp:215-246 | A response is malformed exactly if it has not one Call-ID and one From header |
| SipRegistry.TagMisread | src/sipster.cpp:170-184 | A message with the registered tag b and the parameter tagx before it is not found |
| SipRegistry.TagConfused | src/sipster.cpp:170-184 | A message with a tag that is not registered, and before it a parameter tagx whose value is, resolves to the leg of that value, although it has no From header |
| SipRegistry.FoundAnswered | src/sipster.cpp:165-169 | A request that finds its leg has one To header, so that no response to it shares the tag record |
| SipRegistry.OfMeans | src/sip_headers.cpp:457-485 | Relates the number of leaves found and the first of them to the headers of that kind in the list |
| SipRegistry.TheHeader | src/sipster.cpp:144-213 | The header of a kind, exactly if there is one only |
| SipRegistry.FirstTag | src/sipster.cpp:332-348 | The tag of the first To header |
| SipRegistry.Sipster.CreateLeg | src/sipster.cpp:33-128 | The nested map after leg creation, keyed by the local tag |
| SipRegistry.Sipster.Register | src/sipster.cpp:60-79 | One key is inserted, and an inner map where there was none |
| SipRegistry.Sipster.Lookup | src/sipster.cpp:226-251 | The leg under Call-ID and tag, or null exactly if there is none |
| SipRegistry.Sipster.GetCallLegForRequest | src/sipster.cpp:144-213 | The registry step and its three return codes |
| SipRegistry.Sipster.GetCallLegForResponse | src/sipster.cpp:215-274 | The lookup by the From tag and its return codes, success without a leg included where the From header has no tag |
| SipRegistry.Sipster.ProcessRequest | src/sipster.cpp:276-330 | The registry step; a malformed request is answered with 400 and one that finds no leg with 481, with the request's headers; otherwise the handler's code or the body's error. The leg is handed the body where there is one that is understood, and no other leg's changes |
| SipRegistry.Sipster.ProcessResponse | src/sipster.cpp:332-372 | The registry step and the return code; the leg has the To tag, if there is one, and the body, if there is one that is understood, and no other leg changes |
| SdpText.DecodeMedia | src/sdp.cpp:710-722 | The media type with that name, and no earlier one has it, or none exactly if none has it |
| SdpText.FindAttribute | src/sdp.cpp:724-742 | The attribute with that name, and no earlier one has it, or none exactly if none has it |
| SdpText.OriginReadBack | src/sdp.cpp:299-337 | Parsing a printed origin gives it back |
| SdpText.ConnectionReadBack | src/sdp.cpp:387-428 | Parsing a printed connection gives it back, with a ttl below 2 turned into 127 by the printer |
| SdpText.TimingReadBack | src/sdp.cpp:442-466 | Parsing a printed timing gives it back |
| SdpText.RtpmapReadBack | src/sdp.cpp:614-655 | Parsing a printed rtpmap gives it back, with a single channel dropped |
| SdpText.AttributeReadBack | src/sdp.cpp:724-742 | Parsing a printed attribute gives it back |
| SdpText.PtsReadBack | src/sdp.cpp:500-513 | Parsing printed payload types gives them back in order |
| SdpText.PtsSurvive | src/sdp.cpp:500-513 | What the payload types come back as from their printed text; it is the same list exactly if those after the first have at most two digits |
| SdpText.FmtpGrows | src/sdp.cpp:661-685 | A printed fmtp comes back with its payload type in front of its parameters, so it never comes back as it was |
| SdpText.MediaReadBack | src/sdp.cpp:480-552 | Parsing a printed media line gives it back, with a port count of 1 dropped |
| SdpText.LineReadBack | src/sdp.cpp:744-775 | Parsing any printed line gives its normal form |
| SdpReads.ConnectionRead | src/sdp.cpp:387-411 | Any connection by its words: without a slash the whole address and a ttl of 0, else the number up to a second slash; missing words are empty |
| SdpReads.OriginRead | src/sdp.cpp:299-323 | Any origin by its six parts |
| SdpReads.TimingRead | src/sdp.cpp:442-453 | Any timing, a missing stop time being 0 |
| SdpReads.RtpmapRead | src/sdp.cpp:614-637 | Any rtpmap: what follows the clock is kept as it is and its number is the channels |
| SdpReads.AttributeRead | src/sdp.cpp:724-742 | Any attribute: the one of that name whatever its value, which only rtpmap and fmtp keep; none exactly for an unknown name |
| SdpReads.PtsRead | src/sdp.cpp:500-513 | Any words are read as payload types modulo 256, and nothing behind a double space |
| SdpReads.MediaRead | src/sdp.cpp:480-516 | Any media line: no type exactly for an unknown name, the port with or without a count, white space around the payload types ignored |
| SdpReads.PortsSurvive | src/sdp.cpp:518-538 | What the ports come back as from their printed text; the count is the same exactly if it is not 1 and port and count together have at most eight digits |
| SdpReads.LineUnderstood | src/sdp.cpp:744-762 | A line gives something exactly if its name is one of the eleven letters that have a parser |
| SdpReads.LetterRead | src/sdp.cpp:744-762 | What each letter gives, with any white space before the value |
| SdpReads.StringSurvives | src/sdp.cpp:350-373 | A string line comes back cut to the room in its printed line, so it survives exactly if the line fits |
| SdpReads.PrintedWithin | src/sdp.cpp:271-552 | Printed lines are within the buffers of their printers, origin and media lines as the beginning of their text |
| SdpSessions.LinesBuild | src/sdp.cpp:13-206 | Storing the lines that printing writes, from an empty session, gives the session |
| SdpSessions.NormalPrints | src/sdp.cpp:95-206 | A line prints the same as its normal form |
| SdpSessions.SdpRoundTrip | src/sdp.cpp:13-206 | Parsing a printed session gives its normal form, which prints the same, and normalizing twice is normalizing once |
| SdpSessions.BeforeMedia | src/sdp.cpp:25-90 | Before any media line, the session has the last information and connection and all attributes |
| SdpSessions.InSection | src/sdp.cpp:25-90 | After a media line, the latest media has them and the session keeps its own |
| SdpSessions.Scope | src/sdp.cpp:25-90 | Of lines before and in sections, what belongs to the session and what to each media |
| SdpSessions.ScopeOfAny | src/sdp.cpp:25-90 | Any lines divide into such parts at their media lines, so the scope is that of any input |
| SdpSessions.AttributesKept | src/sdp.cpp:70-83 | The attribute lines of any input are, in order, the session's attributes followed by each media's |
| SdpSessions.SessionWide | src/sdp.cpp:32-86 | Version, origin, name, URI, email, phone and timing are those of the last line of their kind, wherever among the lines it stands |
| SdpReads.UnderstoodJoined | src/sdp.cpp:22-90 | Lines that are not understood are passed over, and the others taken in order |
| SdpReads.DescriptionRead | src/sdp.cpp:13-93 | Any description is the session that its understood lines build, up to the first empty line |
| SdpReads.ConnectionOfSession | src/sdp.cpp:57-64 | A connection line without a ttl, the last before the first media line, is the session's connection with its whole address and a ttl of 0 |
| SdpReads.ConnectionOfMedia | src/sdp.cpp:57-64 | The same of the last one in the section of a media line, for that media |
| SdpObjects.OriginParse | src/sdp.cpp:299-323 | The cursor steps compute the parser of which OriginReadBack says that it undoes the printer |
| SdpObjects.ConnectionParse | src/sdp.cpp:387-411 | The cursor steps compute the parser of which ConnectionReadBack says that it undoes the printer; a connection without a ttl has its whole address and the ttl 0, as ConnectionRead says of any text |
| SdpObjects.TimingParse | src/sdp.cpp:442-453 | The cursor steps compute the parser of which TimingReadBack says that it undoes the printer |
| SdpObjects.PtsParse | src/sdp.cpp:500-513 | The loop reads every payload type, up to the first empty token, as PtsReadBack needs it |
| SdpObjects.MediaParse | src/sdp.cpp:480-516 | The cursor steps compute the parser of which MediaReadBack says that it undoes the printer |
| SdpObjects.RtpmapParse | src/sdp.cpp:614-637 | The cursor steps compute the parser of which RtpmapReadBack says that it undoes the printer |
| SdpObjects.FmtpParse | src/sdp.cpp:661-674 | The parameters are the whole input, payload type included, because they are read with a fresh cursor |
| SdpObjects.AttributeParse | src/sdp.cpp:724-742 | Finds the attribute by the part before the colon and dispatches on it; none for an unknown one |
| SdpObjects.HeaderParse | src/sdp.cpp:744-762 | Dispatches on the letter to the line parser of which LineReadBack speaks; none for a letter without parser |
| SdpObjects.Sdp.Store | src/sdp.cpp:32-86 | The switch stores a line into the session or into the current media |
| SdpObjects.SdpParse | src/sdp.cpp:13-93 | The loop builds the session of the text, as DescriptionRead, Scope and SessionWide say, skipping lines that are not understood |
| SdpObjects.PtsPrint | src/sdp.cpp:540-544 | The loop prints the text that PtsReadBack reads, each entry cut to three characters |
| SdpObjects.MediaPrint | src/sdp.cpp:518-552 | Prints the text that MediaReadBack reads, the port cut to nine characters and the line to 79 |
| SdpObjects.SdpPrint | src/sdp.cpp:95-206 | The concatenations print the whole session in the order of the standard, within the buffer |
| SdpObjects.PrintedTextFits | src/sdp.cpp:13-206 | A printed session is within the buffers and arrays of the parser |
| SdpObjects.Resend | src/sdp.cpp:13-206 | Printing a session and parsing the text gives a new object that holds the session in its normal form |

## Left out

Stated weaker than one could wish:

- MessageText.RequestRoundTrip: needs at least one header (HeaderNeeded says exactly what happens otherwise), and headers whose fields are free of their own delimiters and within their buffers.
- MessageText.ResponseRoundTrip: the same conditions.
- SdpSessions.SdpRoundTrip: sessions with an fmtp are excluded, because its parser takes the whole value as parameters and does not undo its printer (FmtpGrows); payload types after the first are below 100, because the printer's `singlept` buffer cuts longer ones (PtsSurvive). Fields are free of their own delimiters and every field and printed line fits its buffer.
- SipRegistry.Sipster.ProcessResponse: a response without a From tag is excluded, for which the code goes on with a null leg, and one that finds its leg has a To header, whose leaf the code reads without a check, with a tag that fits its buffer.
- SipRegistry.Sipster.ProcessRequest: every leg has a request handler; a leg without one is freed while it is still registered. What the handler and the SDP parser answer are parameters.
- SipRegistry.Sipster.GetCallLegForRequest: where a leg is to be created, the Call-ID is shorter than its buffer of 150 and the From header has a tag, which the code reads without a check.
- SipMessages.MessagePrint: the text is within the size that the code computes (500, plus 200 for each header, plus the body).
- SdpObjects.SdpPrint: the text is within the code's buffer, and every line has a known type; an unknown attribute or media type prints through a null name.
- SimpleRegex.MatchRegexAnywhere: the string is shorter than the greatest size_t, which is how the code writes an unbounded repetition.
- RbTree.Head.Insert: elements are compared by an integer key; an arbitrary comparison function is not modelled.

Not modelled:

- RB_AUGMENT, which does nothing, and the safe and reversed loop macros, which repeat RB_NEXT and RB_PREV.
- Freeing and destroying objects, failed allocation, and logging.
- Strings with NUL bytes; strings are sequences without them, and an absent string is the empty one for tags.
- The sockets, work queue and start and end of the library (`src/sipster.cpp:374-462`, `src/sipster.cpp:495-647`), and whether a reply is sent.
- Addresses: sockaddr conversion (`src/base.cpp`), address recognition by `std::regex`, `parsedAddress` and the address fields of legs.
- Random tags and UUIDs (`src/utils.cpp:51-90`): a generated tag is a parameter of the step, new to its Call-ID.
- Buffers that `snprintf` cuts are cut in the model; those filled without a bound are preconditions that the text fits.
- Numbers that overflow `atoi` are taken modulo the width of the field they go to.
- Printing a method that is not known, and headers whose table entry has no printer.
- The check of the content type, which copies a string where it means to compare and always succeeds.
- The arrays of an SDP session are sequences, with their capacities as preconditions of storing.
- The clones of SDP headers, which do not copy their input (`src/sdp.cpp:290`, `src/sdp.cpp:557`).
- Case-insensitive header names and folded lines (section 7.3.1 of RFC 3261), which the code does not implement.
- The template of a new request, and what applications do with messages.
- The rest of googletest: error messages of the validator, death tests, the POSIX matcher.
