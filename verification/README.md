# Verified models of the rpmz audits, fixtures and test protocols

The Python side of rpmz carries its own parsers, lexers, binary encoders and a
small concurrent protocol: the release audit reads the workflow with a parser
of its own, two audits lex Zig sources, the OpenPGP fixtures and RPM headers
are written byte by byte, and the replay tests decide from a connection counter
whether a replay touched the network. This project models that code in Dafny
and proves what the rest of the scripts rely on.

Each algorithm is a function over values; each loop of the scripts is a method
proved equal to it; the lemmas say what the functions mean.

| file | what it models |
|---|---|
| `Text.dfy`, `Bytes.dfy` | the Python `str`, `bytes` and `struct` operations the scripts use |
| `Workflow.dfy` | the indentation-driven workflow parser |
| `WorkflowBlocks.dfy`, `WorkflowScalars.dfy` | what block scalars and scalars mean, said of their lines and texts |
| `WorkflowRoundTrip.dfy`, `WorkflowQuotes.dfy` | printing a document and parsing it again; quoted scalars wherever they stand |
| `WorkflowScan.dfy`, `WorkflowLayout.dfy`, `WorkflowNoise.dfy` | the parser's steps; documents as the trees their columns give; blank lines and comments |
| `WorkflowErrors.dfy`, `WorkflowDepartures.dfy` | what its errors name; where the parser departs from YAML |
| `ZigLexer.dfy`, `ZigPieces.dfy`, `ZigEscapes.dfy` | the position-preserving lexer, where its pieces end, its composition at newlines, its escapes |
| `ZigImports.dfy` | the `@import` calls and their expansion in place |
| `Errdefer.dfy`, `ErrdeferExact.dfy` | the brace-tracking `errdefer` audit, exact by its own table of bodies |
| `ErrdeferOwn.dfy`, `ErrdeferFunctions.dfy`, `ErrdeferInputs.dfy` | which brace is a function's own, when the audit finds it, what it then reports, and inputs where it errs |
| `OpenPgp.dfy`, `OpenPgpSignatures.dfy`, `OpenPgpKeyring.dfy` | the OpenPGP writers, readers from RFC 4880, hash inputs, keyrings |
| `RpmHeader.dfy` | the header encoder with a reader |
| `RpmPatch.dfy`, `RpmReencoding.dfy` | the in-place patches, on any blob and on the headers of the encoder |
| `ConnectionTrap.dfy` | the trap's counters and the protocol of server loop, handlers and snapshot |
| `Closure.dfy`, `ActionOrder.dfy` | the two dependency worklists; the order of recorded actions |

`dafny verify dfyconfig.toml` checks the whole project.

## What is assumed

- `ast.literal_eval` on quoted scalars, the hash functions, the signing primitives, the
  object identifiers of curves, the three regular expressions of the `errdefer` audit
  and the reading of package manifests are parameters; the results hold for all of them.
- The server loop of the trap is the one of `socketserver`: select, accept one
  connection if one is pending, then `service_actions`. The backlog is first in,
  first out. Handlers may receive and finish at any time.

## Where the code does something its description does not say

- `+` chomping of a block scalar behaves like the default (`Chomping`), which drops
  one trailing blank line: `|+` keeps all lines exactly when the last is not blank
  (`KeepIff`), `|` drops all trailing blank lines exactly when there is at most one
  (`ClipIff`).
- A block line indented one column past its key loses a character
  (`BlockKeepsText`, `OneColumnLosesText`).
- A list at the column of its key, which YAML allows, is refused everywhere
  (`NoListAtKeyColumn`, `ListAtKeyColumn`).
- A list item is split at any colon, quotations and comments included, so a quoted item
  with a colon in it or behind it becomes a mapping (`QuotedItemIff`, `ColonInComment`).
- The Zig lexer keeps newlines in place except inside `@"..."`
  (`NewlinesSurvive`, `NewlineLost`).
- The `errdefer` audit finds a function's own brace only if that brace ends its line and
  nothing before it stops the search; `OwnBraceFound` has the exact condition. It takes
  a body that is closed on its line for one that runs on, and can then report an
  `errdefer` where no function is open (`ReportsOutsideFunctions`). It takes the brace of a return type
  like `switch (..) {` (common/api.zig:170-174) for the body, and misses the
  unreachable `errdefer`s behind it (`MissesErrdefer`).
- The prefixed MPI encoder is described as tightening the bit count to the top
  set bit; it looks at the first octet only, so it is right exactly when that
  octet is nonzero (`PrefixAgreesIff`).
- The detached signatures write the length of the fingerprint area in one octet; a
  fingerprint longer than 189 octets would make the area unreadable (`IssuerAreaReads`).
- A string with a NUL is written to an RPM header without complaint and does not
  read back (`HeaderRoundTrip`).
- The state patch writes where the state entry points without looking at its length.
  Among readable entries it changes that entry alone exactly when the entry has a first
  octet and no other readable entry covers it (`StatePatchChangesOnlyState`); an empty
  entry makes it change whatever field starts at the same place (`EmptyStatePatch`). Installed headers have a state entry only when
  it has octets (rpmzig/rpmdb_write.zig:1363-1379).

## Model

| member | source | states |
|---|---|---|
| Workflow.StripComment | scripts/release-audit.py:47-69 | the loop over quote and escape flags computes the text before the comment |
| Workflow.CommentIsFirst | scripts/release-audit.py:47-69 | the scan stops at the least `#` outside quotes that starts the text or follows white space, and nowhere else |
| Workflow.UncommentedMeans | scripts/release-audit.py:47-69 | what is kept is the text before that least `#`, right-stripped, for every text |
| WorkflowScalars.PlainText | scripts/release-audit.py:72-89 | an unquoted, uncommented text that is no keyword and no inline list stands for itself, also as a key |
| WorkflowScalars.Keywords | scripts/release-audit.py:72-89 | the keywords, the empty scalar and the empty list |
| WorkflowScalars.InlineList | scripts/release-audit.py:78-82 | an inline list of plain items reads as exactly those items in order |
| WorkflowScalars.ScalarStands | scripts/release-audit.py:72-89 | a text that is neither quoted nor bracketed is a keyword or stands for itself, unmatched quotes included |
| WorkflowQuotes.QuotedScalar | scripts/release-audit.py:72-77 | a quotation is evaluated with its quotes, whatever `#`, blanks or other quotes it holds, and whatever white space or comment is around it |
| WorkflowQuotes.QuotedEvaluates | scripts/release-audit.py:76-77 | whatever is left of a text between two equal quotes is evaluated, also where the quotes do not balance |
| WorkflowQuotes.QuotedList | scripts/release-audit.py:78-82 | an inline list of quotations and plain texts reads as their values in order, or as the error of the first item without one, whatever comment follows |
| WorkflowQuotes.QuotedPrints | scripts/release-audit.py:72-77 | as a value, item or key of a printed document a quotation means what it evaluates to, so the round trip holds of it exactly if it can be evaluated |
| WorkflowQuotes.QuotedItem | scripts/release-audit.py:184-199 | a document of one quoted item, at any column and with any comment, is the list of what it evaluates to, or the error |
| WorkflowQuotes.QuotedItemIff | scripts/release-audit.py:197-200 | a quoted item is read as its text if and only if neither it nor the comment behind it has a colon |
| WorkflowQuotes.ColonInComment | scripts/release-audit.py:197-201 | a colon in the comment behind a quoted item makes it the key of a mapping |
| WorkflowQuotes.ReleaseTags | scripts/release-audit.py:793-797 | the source text of the tag trigger, with its quoted pattern, reads as exactly the mapping the policy asks for |
| WorkflowScan.Chomping | scripts/release-audit.py:140-156 | `+` equals the default in both styles; `-` is the default without its trailing newlines |
| WorkflowBlocks.BlockMeans | scripts/release-audit.py:140-156 | the text of a block under each of the six headers, said of its lines: which breaks fold to blanks and which trailing blank lines count |
| WorkflowBlocks.KeepIff | scripts/release-audit.py:150-156 | a literal block with `+` keeps every line if and only if the last one is not blank |
| WorkflowBlocks.ClipIff | scripts/release-audit.py:150-156 | a literal block without chomping drops all trailing blank lines if and only if there is at most one |
| WorkflowBlocks.StripMeans | scripts/release-audit.py:150-156 | a literal block with `-` drops all trailing blank lines and the last newline |
| WorkflowBlocks.LiteralSameIff | scripts/release-audit.py:150-156 | two literal blocks mean the same text if and only if their lines agree up to one trailing blank line |
| WorkflowScalars.FoldedParagraph | scripts/release-audit.py:151-156 | folding a paragraph joins its lines by single blanks and ends in one newline |
| Workflow.WorkflowParser.NextContent | scripts/release-audit.py:96-102 | the skip over blank and comment lines |
| Workflow.WorkflowParser.Parse | scripts/release-audit.py:104-111 | parsing, with its error for trailing content, as the loops of the parser perform it |
| Workflow.WorkflowParser.BlockAt | scripts/release-audit.py:113-120 | every successfully parsed block strictly advances the line index and stays in the document |
| Workflow.WorkflowParser.ParseBlock | scripts/release-audit.py:113-120 | dispatch between list and mapping at the expected column, or an indentation error naming the line |
| Workflow.WorkflowParser.NestedValue | scripts/release-audit.py:131-138 | a deeper block, or an empty mapping that consumes nothing |
| Workflow.WorkflowParser.BlockScalar | scripts/release-audit.py:140-156 | the loop that collects a block scalar's lines |
| Workflow.WorkflowParser.MappingValue | scripts/release-audit.py:158-163 | block scalar, nested value or scalar by the raw text |
| Workflow.WorkflowParser.ParseMap | scripts/release-audit.py:165-182 | the mapping loop with its duplicate-key error, started from nothing |
| Workflow.WorkflowParser.ParseItem | scripts/release-audit.py:197-216 | one list item, with the continuation of its mapping two columns deeper and the overlap error |
| Workflow.WorkflowParser.ParseList | scripts/release-audit.py:184-218 | the list loop, started from nothing |
| Workflow.ParseWorkflow | scripts/release-audit.py:221-225 | a workflow is parsed from its text and must be a mapping |
| WorkflowRoundTrip.RoundTrip | scripts/release-audit.py:92-218 | for every printable tree of mappings, lists, plain and block scalars of all six headers, parsing the printed lines gives exactly the tree's meaning; a block means the text its lines and header say, not what the parser computes |
| WorkflowRoundTrip.SourceRoundTrip | scripts/release-audit.py:92-225 | the same from source text; a document that is a list is refused |
| WorkflowRoundTrip.SplitMeans | scripts/release-audit.py:93-94 | a source splits at each line break, a carriage return and newline counting as one, and nowhere else |
| WorkflowRoundTrip.ValueParses | scripts/release-audit.py:131-163 | the value of a key parses back and ends exactly at the first line not deeper than the key |
| WorkflowLayout.DocumentIff | scripts/release-audit.py:92-218 | a document parses to a value if and only if one flat pass reads every content line, once and in order, and the value is the tree the columns of the keys and dashes give, with no key twice in a mapping |
| WorkflowNoise.NoiseIgnored | scripts/release-audit.py:96-102 | a blank line or comment inserted outside block scalars changes neither whether a document parses nor what it parses to |
| WorkflowErrors.IndentationMeans | scripts/release-audit.py:41-44 | the column is the number of leading blanks; it is an error exactly if a tab stands in the leading white space |
| WorkflowErrors.MappingMeans | scripts/release-audit.py:122-129 | key and value are what stands before and behind the first colon, with both errors |
| WorkflowErrors.ErrorsNameFaults | scripts/release-audit.py:92-218 | every error of a document names a fault its lines have, at the line it stands on and by the key that repeats; unexpected indentation is never raised |
| WorkflowErrors.UnexpectedColumn | scripts/release-audit.py:113-117 | asked for a block at another column, the parser names the line it found |
| WorkflowScan.NoKeyTwice | scripts/release-audit.py:176-181 | no mapping of a parsed document, however nested, has a key twice |
| WorkflowScan.BlockExtent | scripts/release-audit.py:140-149 | a block scalar swallows exactly the longest run of blank or deeper lines and what it keeps of each |
| WorkflowScan.BlockKeepsText | scripts/release-audit.py:147-148 | a deeper line keeps its text if and only if it is indented two columns past the key |
| WorkflowDepartures.OneColumnLosesText | scripts/release-audit.py:147-148 | a document whose block line stands one column past its key parses without that line's first character |
| WorkflowDepartures.NoListAtKeyColumn | scripts/release-audit.py:131-138 | in a document that parses, no key without a value, at any depth and outside block scalars, has a list item at its own column as the next content |
| WorkflowDepartures.ListAtKeyColumn | scripts/release-audit.py:131-138 | a document that starts with such a key and list is refused as trailing content, whatever follows |
| ZigLexer.ReadQuoted | scripts/replay-confinement-audit.py:292-309 | end and value of a quoted text, escapes decoded, whether or not it closes |
| ZigLexer.LexZig | scripts/replay-confinement-audit.py:312-369 | the lexer's loop yields the code and the string tokens of the pieces of the source |
| ZigLexer.PiecesPartition | scripts/replay-confinement-audit.py:312-369 | the pieces partition the source |
| ZigPieces.PiecesMean | scripts/replay-confinement-audit.py:312-369 | every character lies in a piece whose kind and end are said by the characters alone: comments and multi-line strings up to the newline, block comments to the token at which openers and closers balance, literals to the first unescaped quote, and code exactly where no opener stands |
| ZigPieces.StringsExact | scripts/replay-confinement-audit.py:354-359 | the string tokens are exactly the double-quoted pieces, each with its span and value |
| ZigPieces.EscapeMeans | scripts/replay-confinement-audit.py:262-289 | the short escapes, the two digits behind `x` and the braced digits behind `u`, by their value; any other character stands for itself |
| ZigPieces.PlainReads | scripts/replay-confinement-audit.py:292-309 | text without backslashes and quotes of its kind reads as it is |
| ZigLexer.CodeMirrorsSource | scripts/replay-confinement-audit.py:258-259 | the code has the source's length, copies code characters, and keeps only blanks and newlines of comments and literals |
| ZigLexer.NamesFit | scripts/replay-confinement-audit.py:344-353 | a decoded name always fits its span, so cutting it there never loses a character |
| ZigLexer.NewlinesSurvive | scripts/replay-confinement-audit.py:312-369 | newlines keep their positions if and only if no `@"..."` spans a line |
| ZigEscapes.NewlineLost | scripts/replay-confinement-audit.py:344-353 | the source of one `@"..."` over two lines, whose newline is blank in the code |
| ZigLexer.StringsOrdered | scripts/replay-confinement-audit.py:354-359 | string tokens are in order, disjoint, inside the source and start at a quote |
| ZigLexer.EscapeStopsAtNewline | scripts/replay-confinement-audit.py:262-289 | the unbounded lookahead of an escape never reaches past a newline |
| ZigLexer.LexComposes | scripts/replay-confinement-audit.py:551-553 | lexing composes at a newline for every continuation if and only if the first part ends in no open quote or comment |
| ZigLexer.LexIsIdempotent | scripts/replay-confinement-audit.py:312-369 | no comment or literal is left in the code: lexing it again changes nothing and finds no string |
| ZigEscapes.WrittenReads | scripts/replay-confinement-audit.py:262-309 | every sequence of code points, written with the escapes, reads back as itself up to its closing quote |
| ZigEscapes.NameIsShown | scripts/replay-confinement-audit.py:344-353 | `@"name"` shows the bare name and blanks for the rest of its span |
| ZigPieces.NameShown | scripts/replay-confinement-audit.py:344-353 | `@"..."` shows letters, digits and underscores that form an identifier bare, and blanks for anything else, over the whole span |
| ZigEscapes.LiteralCarriesValue | scripts/replay-confinement-audit.py:354-359 | a string literal is one token that carries its decoded value |
| ZigImports.MatchingParenthesis | scripts/replay-confinement-audit.py:465-476 | the least position whose closing parenthesis balances the opening one, or none |
| ZigImports.ImportCalls | scripts/replay-confinement-audit.py:372-390 | the loop over the matches, with both rejections |
| ZigImports.MatchMeans | scripts/replay-confinement-audit.py:374 | the matches are exactly where the text `@import`, white space and a parenthesis stand |
| ZigImports.CallsMean | scripts/replay-confinement-audit.py:372-390 | a source is accepted if and only if every match has a first balancing parenthesis, white space alone up to it in the code and exactly one string within; otherwise the first match that fails decides which error comes |
| ZigImports.AcceptedCalls | scripts/replay-confinement-audit.py:372-390 | on accepted input the calls are exactly the matches, in order and disjoint; each closes at its first balancing parenthesis over blank code and encloses exactly one string, whose value it carries |
| ZigImports.ExpandStdImports | scripts/replay-confinement-audit.py:393-402 | the in-place splice loop |
| ZigImports.SplicedMeans | scripts/replay-confinement-audit.py:393-402 | a call gives way to `std` and the blanks that fill its span |
| ZigImports.ExpansionInPlace | scripts/replay-confinement-audit.py:393-402 | expanding disjoint calls keeps the length and every character outside the `std` calls, and fixes those inside |
| ZigImports.ExpandedSource | scripts/replay-confinement-audit.py:372-402 | for every accepted source the ranges found stay valid in the expansion |
| Errdefer.StripNoise | scripts/dead-errdefer-audit.py:43-74 | the single pass that empties literals and drops comments |
| ErrdeferExact.StripKeepsCode | scripts/dead-errdefer-audit.py:43-74 | of a line of code, literals and an optional comment or open literal exactly the code stays, whatever the literals hold |
| ErrdeferExact.StripIsCode | scripts/dead-errdefer-audit.py:43-74 | every line is of that form, so stripping keeps exactly the code of every line |
| ErrdeferExact.StripIsIdempotent | scripts/dead-errdefer-audit.py:43-74 | a stripped line has nothing left to strip, for every line |
| Errdefer.ReturnTypeOf | scripts/dead-errdefer-audit.py:77-105 | the accumulation loop over the lines of a signature |
| ErrdeferExact.BodyLineIsLeast | scripts/dead-errdefer-audit.py:77-105 | the body line is found if and only if it is the least line within reach whose accumulated text opens a body with no prototype before it |
| ErrdeferExact.NoBodyIff | scripts/dead-errdefer-audit.py:84-104 | a declaration has no body if and only if the text ends in a `;` before any line within sixty opens one |
| ErrdeferExact.PrototypeHasNoBody | scripts/dead-errdefer-audit.py:87-91 | a declaration ended by a `;` before any brace has no body, over however many lines |
| ErrdeferExact.BodyBrace | scripts/dead-errdefer-audit.py:159-165 | nothing but white space follows the last brace of the line that ends a signature, and that brace ends the accumulated text, across blank lines too |
| ErrdeferExact.OneFrameEach | scripts/dead-errdefer-audit.py:139-145 | every table entry comes from the last declaration with that body line, and its line pushes exactly one typed frame |
| Errdefer.ReturnTypeAfterParams | scripts/dead-errdefer-audit.py:108-128 | the walk to the parenthesis that closes the parameters |
| ErrdeferExact.ReturnTypeIs | scripts/dead-errdefer-audit.py:108-128 | the return type is all that stands between that parenthesis and the brace, parentheses in it included, whatever white space follows the brace |
| ErrdeferExact.NoReturnType | scripts/dead-errdefer-audit.py:115-128 | without a declaration or a closing parenthesis the return type is empty |
| Errdefer.Scan | scripts/dead-errdefer-audit.py:135-176 | the stack machine's outcome by its brace stacks: findings, the line that closes too much, or the number left open |
| ErrdeferExact.StackLists | scripts/dead-errdefer-audit.py:147-173 | the stack lists the frames of exactly the braces still open by counting, outermost first |
| ErrdeferExact.ScanIsExact | scripts/dead-errdefer-audit.py:135-176 | the scan fails if and only if the stripped braces are unbalanced; otherwise it reports precisely, and in order, the `errdefer` lines whose innermost typed frame, by the scan's table, cannot return an error |
| ErrdeferOwn.OwnBraceFound | scripts/dead-errdefer-audit.py:77-105 | a declaration's own brace, the first at top level behind its parameters whose group no more signature follows, is found if and only if it ends its line within reach, in balance and claimed by no container, and no line before it ends in a `;` or in such a brace |
| ErrdeferOwn.TypeFound | scripts/dead-errdefer-audit.py:108-128 | for an own brace that is found, the noted type is what stands between the parameters and it |
| ErrdeferFunctions.FramesFitIff | scripts/dead-errdefer-audit.py:139-165 | the typed frames are the open functions with their return types at every line if and only if every table entry is an own brace with its type and no body open past its line is missing |
| ErrdeferFunctions.ReadableFits | scripts/dead-errdefer-audit.py:139-145 | the table fits where every declaration's own brace is visible, or its misreading is overwritten and its body closed on its line |
| ErrdeferFunctions.InnermostIsFunction | scripts/dead-errdefer-audit.py:147-155 | where the frames fit, the innermost typed frame at a line is the innermost function whose own brace is open there |
| ErrdeferFunctions.ReportsAreFunctions | scripts/dead-errdefer-audit.py:135-176 | where the table fits the findings are exactly the `errdefer` lines whose innermost open function has a return type without `!` that is neither `type` nor `anyerror` |
| ErrdeferInputs.ReportsOutsideFunctions | scripts/dead-errdefer-audit.py:135-176 | the file with a one-line body on which the scan reports an `errdefer` where no function is open |
| ErrdeferInputs.MissesErrdefer | scripts/dead-errdefer-audit.py:135-176 | the file with a `switch` for a return type on which the scan misses an unreachable `errdefer` |
| ErrdeferInputs.ReadableFile | scripts/dead-errdefer-audit.py:135-176 | a file with braces within parentheses of the return type whose table fits |
| ErrdeferFunctions.Audit | scripts/dead-errdefer-audit.py:135-176 | the audit of a file is exact by its table, and of functions where the table fits |
| OpenPgp.EncodeMpi | rpmzig/pgp/testdata/gen_subkey_fixture.py:42-47 | the integer encoder, None where the bit count does not fit |
| OpenPgp.MpiRoundTrip | rpmzig/pgp/testdata/gen_subkey_fixture.py:42-47 | reading an encoded integer gives the number and consumes exactly its octets, whatever follows |
| OpenPgp.MpiMeans | rpmzig/pgp/testdata/gen_subkey_fixture.py:42-47 | a number is encoded if and only if it has at most 65535 bits; the two octets count its bits exactly and no octet behind them is superfluous |
| OpenPgp.EncodeMpiBytes | rpmzig/pgp/testdata/gen_ed25519_fixture.py:53-68 | the octet encoder agrees with the integer encoder on the number the octets denote |
| OpenPgp.EncodeMpiWithPrefix | rpmzig/pgp/testdata/gen_ed25519_fixture.py:71-80 | the prefixed encoder's loop: it agrees with both on a nonzero prefix, and what it writes on zero |
| OpenPgp.PrefixAgreesIff | rpmzig/pgp/testdata/gen_ed25519_fixture.py:71-80 | it agrees if and only if the prefix is nonzero, and writes a zero count in front of all octets otherwise |
| OpenPgpSignatures.PacketRoundTrip | rpmzig/pgp/testdata/gen_subkey_fixture.py:50-55 | an old-format packet reads back with its tag, body and what follows (section 4.2.1 of RFC 4880) |
| OpenPgpSignatures.PacketsSplit | rpmzig/pgp/testdata/gen_subkey_fixture.py:201-205 | packets written one after the other split into exactly those packets |
| OpenPgpSignatures.PacketOctets | rpmzig/pgp/testdata/gen_subkey_fixture.py:50-55 | the octets public-key, subkey and signature packets start with |
| OpenPgpSignatures.LengthRoundTrip | rpmzig/pgp/testdata/gen_subkey_fixture.py:142-156 | all three length forms read back, at 192 and 8384 too (section 5.2.3.1 of RFC 4880) |
| OpenPgpSignatures.LengthForm | rpmzig/pgp/testdata/gen_subkey_fixture.py:150-156 | which form a length takes, at the limits too, and which lengths have none |
| OpenPgpSignatures.SubpacketsRoundTrip | rpmzig/pgp/testdata/gen_subkey_fixture.py:188-192 | a subpacket area parses back into exactly the subpackets written |
| OpenPgpSignatures.BuildersWriteSubpackets | rpmzig/pgp/testdata/gen_subkey_fixture.py:126-156 | the three builders write subpackets of the general form |
| OpenPgpSignatures.SignatureRoundTrip | rpmzig/pgp/testdata/gen_subkey_fixture.py:97-123 | a whole v4 signature body parses back into its parts with nothing left over (section 5.2.3 of RFC 4880) |
| OpenPgpSignatures.SignatureLayout | rpmzig/pgp/testdata/gen_subkey_fixture.py:97-123 | where the parts of a version 4 signature stand, octet by octet |
| OpenPgpSignatures.SignersInput | rpmzig/pgp/testdata/gen_subkey_fixture.py:97-109 | what is hashed is the data, the fixed octets, both lengths and the hashed area, octet by octet as section 5.2.4 of RFC 4880 has them |
| OpenPgpSignatures.HashInputInjective | rpmzig/pgp/testdata/gen_subkey_fixture.py:102-109 | a hash input determines the data and the prefix it was made from |
| OpenPgpSignatures.InputDeterminesSignature | rpmzig/pgp/testdata/gen_subkey_fixture.py:86-123 | equal hash inputs mean equal type, algorithms, hashed subpackets and data |
| OpenPgpSignatures.BindingInputs | rpmzig/pgp/testdata/gen_subkey_fixture.py:171-199 | equal binding inputs mean equal primary and subkey bodies, and no detached input is a binding input (section 5.2.4 of RFC 4880) |
| OpenPgpKeyring.KeyRoundTrip | rpmzig/pgp/testdata/gen_ecdsa_fixture.py:89-113 | key bodies of all four algorithms parse back into creation time and key |
| OpenPgpKeyring.KeyLayout | rpmzig/pgp/testdata/gen_subkey_fixture.py:68-79 | where the parts of a key body stand: version, time, algorithm and the integers in their order |
| OpenPgpKeyring.EcKeyOctets | rpmzig/pgp/testdata/gen_ecdsa_fixture.py:89-113 | every octet of a curve key body, the bit count of its point included |
| OpenPgpKeyring.EdKeyOctets | rpmzig/pgp/testdata/gen_ed25519_fixture.py:113-120 | the legacy Edwards key: 263 bits, 0x40 and the raw octets, the same as the integer they denote |
| OpenPgpKeyring.PointRoundTrip | rpmzig/pgp/testdata/gen_ecdsa_fixture.py:91-97 | both coordinates of a point are recovered from the integer that carries it |
| OpenPgpKeyring.SignV4 | rpmzig/pgp/testdata/gen_subkey_fixture.py:86-123 | the chunk-by-chunk hashing and assembly write the signature over the concatenated chunks |
| OpenPgpKeyring.GenDetachedSig | rpmzig/pgp/testdata/gen_ecdsa_fixture.py:116-160 | the two-integer detached signature |
| OpenPgpKeyring.BuildSigBody | rpmzig/pgp/testdata/gen_ed25519_fixture.py:149-206 | the legacy and native Edwards forms, with the unsupported algorithms refused |
| OpenPgpKeyring.EcWritten | rpmzig/pgp/testdata/gen_ecdsa_fixture.py:116-160 | which two-integer signatures are written |
| OpenPgpKeyring.EcVerifies | rpmzig/pgp/testdata/gen_ecdsa_fixture.py:116-160 | a written one reads back; hint and integers, in their order, are those of the rebuilt hash input, and both areas name the fingerprint |
| OpenPgpKeyring.EdWritten | rpmzig/pgp/testdata/gen_ed25519_fixture.py:149-206 | an Edwards signature is written if and only if both algorithms are supported, the fingerprint fits and 64 octets were signed |
| OpenPgpKeyring.EdVerifies | rpmzig/pgp/testdata/gen_ed25519_fixture.py:149-206 | a written one reads back; its integers as 32 octets each, or its 64 octets, are what the signer returned for the rebuilt hash input, in order |
| OpenPgpKeyring.IssuerAreaReads | rpmzig/pgp/testdata/gen_ed25519_fixture.py:151-152 | the fingerprint area reads back exactly if its length is below 192 |
| OpenPgpKeyring.SignedVerifies | rpmzig/pgp/testdata/gen_subkey_fixture.py:86-123 | a parsed signature verifies: its hint is the first two octets of the digest of the input rebuilt from it and the signed chunks, and its integer is what was signed |
| OpenPgpKeyring.SignatureWritten | rpmzig/pgp/testdata/gen_subkey_fixture.py:86-123 | a signature is written if and only if both areas and the signed integer fit |
| OpenPgpKeyring.KeyringVerifies | rpmzig/pgp/testdata/gen_subkey_fixture.py:165-205 | for all keys and hash functions the keyring reads back as its three packets, and the binding signature and the embedded back-signature both verify over the key bodies read from it |
| OpenPgpKeyring.KeyringWritten | rpmzig/pgp/testdata/gen_subkey_fixture.py:165-205 | with digests and integers of the usual sizes a keyring is written if and only if both key bodies fit a packet |
| RpmHeader.HeaderBlob | pytests/tests/test_distroverpkg.py:44-63 | the loop that lays out the data section and the index |
| RpmHeader.Extents | pytests/tests/test_distroverpkg.py:54-60 | integers are 4-aligned; extents are in order, disjoint, in bounds and hold their fields' values |
| RpmHeader.BlobParts | pytests/tests/test_distroverpkg.py:61-63 | the prefix holds the true counts and every index entry reads back |
| RpmHeader.BlobLayout | pytests/tests/test_distroverpkg.py:54-63 | every number of a blob at its place: two counts, then tag, kind, offset and count of each field, and its value where the offset says |
| RpmHeader.BlobGaps | pytests/tests/test_distroverpkg.py:54-60 | between the values stand only the zeros that align an integer field, and none at the end |
| RpmHeader.BlobWritten | pytests/tests/test_distroverpkg.py:61-63 | a header is written if and only if its numbers fit four octets |
| RpmHeader.TypedFields | pytests/tests/test_distroverpkg.py:32-41 | kind, count and octets of the three typed values |
| RpmHeader.HeaderRoundTrip | pytests/tests/test_distroverpkg.py:32-63 | the reader inverts the encoder if and only if no string holds a NUL, for every field list |
| RpmHeader.ProviderRoundTrip | pytests/tests/test_distroverpkg.py:44-53 | the tests' own header reads back |
| RpmPatch.SetFirstFileState | pytests/tests/test_native_file_triggers.py:704-717 | the in-place state patch, with what it raises, leaves the bytes the specification says and no others |
| RpmPatch.CorruptIndexCount | pytests/tests/test_native_file_triggers.py:748-758 | the in-place count patch |
| RpmPatch.HideProgramTag | pytests/tests/test_native_file_triggers.py:777-786 | the in-place tag patch |
| RpmPatch.SearchMeans | pytests/tests/test_native_file_triggers.py:704-716 | the search finds the first entry with the tag, and misses it if and only if no entry has it |
| RpmPatch.RawChanges | rpmzig/header.zig:746-785 | when one octet of the data changes, the octets of an entry of any kind change if and only if that octet is one of them |
| RpmPatch.StatePatchMeans | pytests/tests/test_native_file_triggers.py:704-717 | on any blob the state patch changes one octet behind the index, leaves every entry, and changes an entry's octets if and only if they cover it; when it finds nothing or raises, the blob stays |
| RpmPatch.StatePatchChangesOnlyState | pytests/tests/test_native_file_triggers.py:704-717 | on any blob, among readable entries, a new state changes the octets of the state entry alone if and only if that entry has a first octet and no other readable entry covers it |
| RpmReencoding.ValueChanges | pytests/tests/test_distroverpkg.py:32-41 | when one octet of the data changes, a typed value changes if and only if it was read from that octet |
| RpmReencoding.StatePatchReencodes | pytests/tests/test_native_file_triggers.py:704-717 | on an encoded header it equals encoding the header with the first octet of the state field replaced |
| RpmReencoding.EmptyStatePatch | pytests/tests/test_native_file_triggers.py:704-717 | on an encoded header with an empty state field the write lands past it or is refused, and changes another field if and only if that field starts at the same place with another octet |
| RpmPatch.CountPatchMeans | pytests/tests/test_native_file_triggers.py:748-758 | on any blob the count patch raises one entry's count by one and leaves all other entries and their octets |
| RpmReencoding.CountPatchReencodes | pytests/tests/test_native_file_triggers.py:748-758 | on an encoded header it equals encoding the header with that one count raised |
| RpmPatch.HidePatchMeans | pytests/tests/test_native_file_triggers.py:777-786 | on any blob the tag patch changes one entry's tag and leaves the rest of it, all other entries and all octets of entries |
| RpmReencoding.HidePatchReencodes | pytests/tests/test_native_file_triggers.py:777-786 | on an encoded header it equals encoding the header with that one tag replaced |
| RpmPatch.HiddenLookups | pytests/tests/test_native_file_triggers.py:777-786 | in any patched blob every other tag is found where it was, and the hidden one is found if and only if a second entry has it, at the first such entry |
| ConnectionTrap.Trap.GetRequest | pytests/tests/test_replay_acceptance.py:98-104 | the counters after an accepted request |
| ConnectionTrap.Trap.Service | pytests/tests/test_replay_acceptance.py:106-109 | the counters after a tick |
| ConnectionTrap.Trap.Handle | pytests/tests/test_replay_acceptance.py:112-136 | the receive loop adds the octets before the first timeout, other exception or end of stream and releases the handler in every case |
| ConnectionTrap.ReceivedMeans | pytests/tests/test_replay_acceptance.py:115-123 | the octets of a handler are the sum of those before its last receive, the first that times out, raises or is empty |
| ConnectionTrap.Trap.Target | pytests/tests/test_replay_acceptance.py:152 | a snapshot waits for the second generation from now |
| ConnectionTrap.Trap.Poll | pytests/tests/test_replay_acceptance.py:153-158 | the waiting condition of a snapshot and its result |
| ConnectionTrap.RunConserves | pytests/tests/test_replay_acceptance.py:94-136 | in every reachable state active is accepted minus finished, bytes is what finished handlers received, and every arrived connection is in exactly one place |
| ConnectionTrap.SnapshotAccounts | pytests/tests/test_replay_acceptance.py:149-158 | a returned snapshot counts exactly the finished connections and all their octets |
| ConnectionTrap.SnapshotOctets | pytests/tests/test_replay_acceptance.py:112-158 | the octets of a returned snapshot are all that any handler of the run had received, in every interleaving |
| ConnectionTrap.NextIsHandled | pytests/tests/test_replay_acceptance.py:149-158 | over every interleaving, what was next in line when a snapshot began is fully handled when it returns |
| ConnectionTrap.OneTickMisses | pytests/tests/test_replay_acceptance.py:152 | the run in which waiting for fewer than two ticks misses a connection |
| ConnectionTrap.SoundIffTwoTicks | pytests/tests/test_replay_acceptance.py:152-158 | snapshots are sound over all runs if and only if they wait for at least two ticks |
| ConnectionTrap.SoundForIff | pytests/tests/test_replay_acceptance.py:149-158 | over all runs a snapshot handles the n-th pending connection if and only if it waits for at least n + 1 ticks, so two ticks answer for the first only |
| ConnectionTrap.ZeroMeansNoneArrived | pytests/tests/test_replay_acceptance.py:149-158 | a snapshot of zero connections means that none had arrived when it began |
| ConnectionTrap.EqualSnapshots | pytests/tests/test_replay_acceptance.py:982-991 | two successive snapshots that are equal mean that everything arrived when the second began was finished when the first returned |
| Closure.ProvideSystemPackages | scripts/public-zig-api-audit.py:109-134 | the worklist terminates with exactly the present packages reachable from the pins, or an error with its reason |
| Closure.ProvidedOrderFree | scripts/public-zig-api-audit.py:115-134 | success and result do not depend on the order in which sets are listed |
| Closure.ExtractDependencyClosure | scripts/product-no-libsolv-fetch-audit.py:30-57 | the worklist terminates with exactly the reachable hashes, or an error with its reason |
| Closure.ExtractionSucceedsIff | scripts/product-no-libsolv-fetch-audit.py:30-57 | it succeeds if and only if everything reachable is cached and none of it is libsolv |
| Closure.ProductWithinProvided | scripts/product-no-libsolv-fetch-audit.py:30-57 | over the same packages the product closure is part of the provided one |
| ActionOrder.OrderedIndices | pytests/tests/test_replay_acceptance.py:623-636 | all indices once, those whose ids the steps name by first mention and the rest ascending; the first step that names no action is the error |
| ActionOrder.LastIndex | pytests/tests/test_replay_acceptance.py:626-628 | an id stands for the last action that has it |
| ActionOrder.OrderByIds | pytests/tests/test_replay_acceptance.py:629-636 | said of the ids: every action once, the earlier mention first, unmentioned actions last by index |
| ActionOrder.RecordedActionOrder | pytests/tests/test_replay_acceptance.py:623-643 | the recorded actions in that order of their ids, each with its own kind |
| ActionOrder.OrderIsUnique | pytests/tests/test_replay_acceptance.py:623-643 | that order is a permutation of the actions and the only one with this property |

## Left out

- WorkflowRoundTrip.RoundTrip: keys and texts of the tree are those `parse_scalar` reads whole (`Printable`); list items that are plain texts hold no colon, because the parser would read them as mappings.
- WorkflowScan.NoKeyTwice: assumes that `ast.literal_eval` returns no mapping with a repeated key.
- Results of `ast.literal_eval` that are neither strings, booleans, lists nor mappings have no value of their own.
- ErrdeferOwn.OwnBraceFound: speaks of the first declaration of a line, the only one the script's search sees; a tuple field that starts with a bracket right behind a function body would count as more signature.
- ErrdeferFunctions.ReportsAreFunctions: whether a return type can carry an error is read off its text, as the script does; aliases of error unions are not resolved.
- WorkflowNoise.NoiseIgnored: says nothing of a line right behind a block scalar, which the block may take in.
- RpmReencoding.StatePatchReencodes: requires a nonempty state field for the re-encoding; EmptyStatePatch says what happens otherwise.
- RpmPatch.RawChanges: an entry's octets end at the end of the blob; the reader's own checks of sizes and regions are not modelled.
- Liveness of the trap: whether a snapshot returns before its two-second deadline depends on scheduling and clocks.
- The SQL around the header patches, copying and unpacking of packages, and all subprocess, network and file-system work.
- The policy checks over parsed workflows and lexed sources (allowlists, token deny-lists, `struct_fields`): one-branch or finite claims.
- The package manager itself, which is written in Zig.
