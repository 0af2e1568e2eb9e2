# Verification of the yatai-deployment operator

A Dafny model of the three parts of yatai-deployment that decide something, and proofs about them.

1. **The JSON codec of the monitor exporter** (`json.lua`), a recursive-descent parser and a printer over
   Lua tables, with local extensions (single-quoted strings, trailing commas).
   `JsonGrammar` gives the accepted language as syntax trees with a text and a meaning, independently of the
   parser; `JsonSpec` and `JsonEncodeSpec` say what the Lua functions return; `JsonDecoder` and `JsonEncoder`
   are the Lua loops and are proved equal to those functions. The main results are that the decoder accepts
   exactly the texts of trees and returns what they denote, that every RFC 8259 text with paired surrogates is
   among them, that encoding succeeds exactly on acyclic well-shaped tables, and that decoding undoes encoding
   exactly on tables without hidden entries. `NumberLaws`, `JsonCharacters` and `JsonPrinting` say what numbers,
   characters and tables are on their own, `JsonErrors` and `JsonViable` what an error says about the text.
   `JsonGrammar` reads RFC 8259 byte by byte; `JsonUtf8` adds when the
   output is UTF-8, `JsonSurrogates` and `JsonUnpaired` what becomes of unpaired surrogates.
2. **The BentoDeployment reconciler**. `Names` and `Desired` are the generated names and objects, `Plans` a run
   as a sequence of steps on the cluster, `Reconciler` the control flow itself (class `Controller`) against an
   API server in which every call may fail, may be applied although it fails, or may be the last one before the
   process dies. `Contents` says field by field what a complete run leaves in the cluster, `Progress` what an incomplete
   one does; `Convergence`, `Repetition`, `Isolation`, `Routing`, `Runs` and `Abandonment` prove what holds over whole
   runs, any number of runs, and several BentoDeployments side by side. `Generators` and `ExporterEnv` hold the
   loops that compute names, labels, selectors and the monitor exporter's variables.
3. **Conversions**: autoscaling settings between the v1alpha3 and v2alpha1 APIs (`Autoscaling`), whole
   BentoDeployments there and back, starting from either (`Conversion`), and the environment of the main container
   (`PodEnv`).

Check the project with `dafny verify dfyconfig.toml`.

## Conventions

- Lua strings are sequences of bytes and indices count from 0. A decoding result is a value with the index after
  it, or an error kind with an index. Lua tables to be encoded live in a heap from ids to entries in `pairs` order,
  together with the border that `#` reports, so every order and every choice of border is covered.
- MD5 is any function whose results are 32 lower-case hexadecimal digits. Results about one BentoDeployment that need
  its Services to have different names assume `NamesOk`: the hashes that tell its runners apart do not collide, and
  it is not named like one of its own hashed Services. `NamesDistinctExact` shows that different names need no less.
  Results about two BentoDeployments assume nothing about hashes; a collision between them is one of the cases.
- A Go map is visited in an order of its own each time, and the cluster lists service accounts in any order. Where
  the order can be seen, in the variables of the monitor exporter and in the account a pod is given, it is an input of
  the run (`Orders`), and results hold for all orders.
- The cluster maps keys (kind, namespace, name) to the generated parts of objects. An object is unchanged for the
  operator when its stored generated part equals the newly generated one, which is what an empty patch means.
- `patch`, `resource.Quantity`, `strconv`, `strings.TrimSpace` and the constants of yatai-common are parameters,
  or data of which only what is written down is known.

## Where the code does not do what one would expect

Each of these is proved.

- `\'` is listed among the escapes but has no inverse, so it ends decoding with an error (`ApostropheEscapeFails`).
- A high surrogate swallows any `\u` escape after it: `\ud800\u0041` is U+2441, and a grammatical string is
  refused when the merged number exceeds U+10FFFF (`UnpairedSurrogates`). `GrammaticalTextExact` says exactly which
  grammatical texts are accepted, and with what value.
- Bytes above 127 are copied into the output, so the encoding of a string that is not UTF-8 is not an RFC 8259 text
  (`EncodeIsRfcExact`, `RawByteIsNotUtf8`).
- An array-like table with entries beyond its first hole is encoded without them (`SparseTableLosesEntries`).
- A debug API server names the `-runner-p-` Service of each runner that is not in stealing mode, which the same run
  deletes (`ReferencesResolve`).
- A BentoDeployment `x` that is not being debugged deletes the main Deployment of one called `x-d`
  (`DebugNameIsDeleted`), and two long names can share a hashed runner Service (`HashedNamesShared`). `KeysMeetExact`
  says exactly when two BentoDeployments get in each other's way.
- While debugging is wanted, `modified` tells only whether the debug Deployment changed
  (`CreateOrUpdateOrDeleteDeployments`).
- The options of the monitor exporter are a map whose visits order the variables of its container, so a second run with
  unchanged inputs can update the API server (`TwoOptionsUpdate`). It never does exactly when the exporter is off or
  all options that no structure option shadows give one and the same variable, and every component names its service
  account or the namespace has at most one that is labelled for pods: with two, a second run that finds them listed
  in another order updates the Deployment (`IdempotentExact`, `NextRunIsQuiet`, `SomeListUpdates`).
- Services select by the component's labels, so an extra pod label that contradicts one of them leaves the Service
  without pods even when no reserved key is involved (`ServiceSelectsExact`). A `PORT` equal to the
  default port plus 4, the proxy's, stops requests as well (`RequestsArriveExact`).
- Only name and value of a user's variable are taken over: one given by `valueFrom`, a Secret say, reaches the
  container without its source and usually empty (`SurvivesExact`), and a `PORT` given so is the bad-port error
  (`EnvsExact`).
- The host in the TLS section of an Ingress follows the domain suffix while the rule's host does not (`TlsHostDiverges`).
- When the Bento disappears, Available=True stays exactly if the BentoRequest does not report that there will be no
  Bento, and an absent BentoRequest is reported as found (`MissingBentoStaysAvailable`).
- The deferred handler returns no error once it has written Available=False, so a run without error has converged or
  reports Available=False (`NoErrorMeansConvergedOrReported`).
- Memory targets and the GPU setting never survive a round through v2alpha1; a memory-only setting turns into the CPU
  default on the second round (`RoundIs`, `FixedExact`, `TwoRoundsExact`). Annotations and labels of the v1alpha3
  specification are dropped (`SpecRound`).
- In the other direction annotations, labels, the monitor exporter, scaling behaviour, metrics v1alpha3 has no setting
  for, extra containers, the service account and variables given by `valueFrom` are lost (`NewSpecRoundExact`).

## Model

| member | source | states |
|---|---|---|
| `Numerals.ScanText` | container_images/bentoml-monitor-exporter/conf/json.lua:271-279 | Every decimal numeral is read back as itself from its text: sign, digits, fraction and exponent. |
| `Numerals.ScanSound` | container_images/bentoml-monitor-exporter/conf/json.lua:271-279 | Whatever the number scanner accepts is a numeral with exactly that text. |
| `Numerals.ToNumberExact` | container_images/bentoml-monitor-exporter/conf/json.lua:271-279 | A token is the number v if and only if it is the text of a decimal numeral of that value. |
| `Numerals.IntNumeralRoundTrip` | container_images/bentoml-monitor-exporter/conf/json.lua:110-116 | An integer printed in decimal is a JSON numeral and is read back as the same number. |
| `NumberLaws.OneDigit` | container_images/bentoml-monitor-exporter/conf/json.lua:271-279 | A digit on its own is its number. |
| `NumberLaws.MoreDigits` | container_images/bentoml-monitor-exporter/conf/json.lua:271-279 | A further digit at the end of a digit string multiplies by ten and adds the digit. |
| `NumberLaws.PointAtEnd` | container_images/bentoml-monitor-exporter/conf/json.lua:271-279 | A point at the end of a digit string changes nothing. |
| `NumberLaws.MovePoint` | container_images/bentoml-monitor-exporter/conf/json.lua:271-279 | Moving the point past one digit to the right multiplies by ten, whatever digits surround it. |
| `NumberLaws.MinusNegates` | container_images/bentoml-monitor-exporter/conf/json.lua:271-279 | A minus in front of a number without one negates it. |
| `NumberLaws.ExponentZero` | container_images/bentoml-monitor-exporter/conf/json.lua:271-279 | An exponent of zero, with any sign and either letter, changes nothing. |
| `NumberLaws.ExponentStep` | container_images/bentoml-monitor-exporter/conf/json.lua:271-279 | An exponent larger by one multiplies by ten, or divides by ten after a minus; equal exponents give equal numbers, however they are written. |
| `Unicode.Utf8RoundTrip` | container_images/bentoml-monitor-exporter/conf/json.lua:193-207 | The UTF-8 encoding of any sequence of scalar values decodes strictly (section 4 of RFC 3629) to that sequence. |
| `Unicode.DecodeOneEncoded` | container_images/bentoml-monitor-exporter/conf/json.lua:193-207 | The encoding of one scalar value is the shortest form and is decoded as itself whatever follows. |
| `Unicode.CombineSurrogates` | container_images/bentoml-monitor-exporter/conf/json.lua:210-219 | The arithmetic on a surrogate pair inverts the split of section 2.1 of RFC 2781. |
| `Unicode.LoneSurrogate` | container_images/bentoml-monitor-exporter/conf/json.lua:193-207 | Half a surrogate pair is encoded in three bytes like any other code point of its size, which are no UTF-8. |
| `JsonSpec.Parse` | container_images/bentoml-monitor-exporter/conf/json.lua:378-385 | Parsing terminates on every byte string, and a success returns an index after the start and at most the length. |
| `JsonSpec.StringRest` | container_images/bentoml-monitor-exporter/conf/json.lua:222-261 | Reading a string terminates, and a success moves past at least one byte and stays within the text. |
| `JsonComplete.CompleteString` | container_images/bentoml-monitor-exporter/conf/json.lua:222-261 | The text of any valid list of characters and escapes, then the quote, reads as the bytes they stand for. |
| `JsonComplete.CompleteElements` | container_images/bentoml-monitor-exporter/conf/json.lua:292-316 | The text of any element list, trailing comma or not, parses to the elements at their indices, ending after the bracket. |
| `JsonComplete.CompleteMembers` | container_images/bentoml-monitor-exporter/conf/json.lua:319-353 | The text of any member list parses to the members assigned in order, ending after the brace. |
| `JsonComplete.CompleteValue` | container_images/bentoml-monitor-exporter/conf/json.lua:378-385 | The text of any accepted tree parses to what it denotes, ending just past it, provided a number or literal is followed by a delimiter. |
| `JsonComplete.DecodeComplete` | container_images/bentoml-monitor-exporter/conf/json.lua:388-398 | Every accepted tree with blanks around it decodes to what it denotes. |
| `JsonComplete.DecodeJson` | container_images/bentoml-monitor-exporter/conf/json.lua:388-398 | Every RFC 8259 text (sections 2 to 7 read byte by byte, surrogates in pairs) decodes without error to the value it denotes. |
| `JsonCharacters.DigitValues` | container_images/bentoml-monitor-exporter/conf/json.lua:210-212 | Each of the sixteen hexadecimal digits has its value in lower and in upper case. |
| `JsonCharacters.BlankExact` | container_images/bentoml-monitor-exporter/conf/json.lua:157 | White space is space, tab, line feed and carriage return. |
| `JsonCharacters.DelimiterExact` | container_images/bentoml-monitor-exporter/conf/json.lua:158 | A token ends at white space, a closing bracket or brace, or a comma. |
| `JsonCharacters.Words` | container_images/bentoml-monitor-exporter/conf/json.lua:282-289 | `true`, `false` and `null` decode to true, false and nil. |
| `JsonCharacters.Numbers` | container_images/bentoml-monitor-exporter/conf/json.lua:271-279 | A text that is one numeral decodes to the number it is read as. |
| `JsonCharacters.Characters` | container_images/bentoml-monitor-exporter/conf/json.lua:222-261 | A byte stands for itself in a string unless it is a control character, which is an error at its index, the quote or a backslash. |
| `JsonCharacters.Escapes` | container_images/bentoml-monitor-exporter/conf/json.lua:245-248 | A backslash before a quote, a backslash, a slash or one of b, f, n, r, t stands for that character or control character. |
| `JsonCharacters.Quotes` | container_images/bentoml-monitor-exporter/conf/json.lua:264-270 | Either quote delimits a string in which the other may stand. |
| `JsonCharacters.Brackets` | container_images/bentoml-monitor-exporter/conf/json.lua:292-316 | Brackets around nothing decode to an empty table, around two texts with a comma to their values at 1 and 2. |
| `JsonCharacters.Braces` | container_images/bentoml-monitor-exporter/conf/json.lua:319-353 | Braces around nothing decode to an empty table, around two members with a comma to their values at their keys. |
| `JsonSound.SoundString` | container_images/bentoml-monitor-exporter/conf/json.lua:222-261 | An accepted string literal is the text of valid characters and escapes, and the result is their bytes. |
| `JsonSound.SoundArray` | container_images/bentoml-monitor-exporter/conf/json.lua:292-316 | What parse_array accepts is the text of an element list that means the result. |
| `JsonSound.SoundObject` | container_images/bentoml-monitor-exporter/conf/json.lua:319-353 | What parse_object accepts is the text of a member list that means the result. |
| `JsonSound.SoundParse` | container_images/bentoml-monitor-exporter/conf/json.lua:378-385 | What parse accepts between two indices is the text of a tree that denotes the result. |
| `JsonSound.DecodeExact` | container_images/bentoml-monitor-exporter/conf/json.lua:388-398 | decode(s) is v if and only if s is the text of an accepted tree that denotes v, with blanks around it. |
| `JsonSound.Locality` | container_images/bentoml-monitor-exporter/conf/json.lua:378-385 | No byte after the returned index affects the value, except that a number or literal must end there. |
| `JsonErrors.ErrorsExplained` | container_images/bentoml-monitor-exporter/conf/json.lua:179-190 | The index of every error holds what that kind of error complains about: the byte that must not be there, the missing closing quote, the token that is no number or literal. |
| `JsonViable.ViablePrefix` | container_images/bentoml-monitor-exporter/conf/json.lua:388-398 | Errors are not reported late: what comes before the byte an error is about can be continued to an accepted text. |
| `JsonMeaning.ArrayMeaning` | container_images/bentoml-monitor-exporter/conf/json.lua:292-316 | A decoded array holds element k at index k, nothing where the element is null, and no other keys. |
| `JsonMeaning.ObjectMeaning` | container_images/bentoml-monitor-exporter/conf/json.lua:319-353 | In a decoded object the last duplicate of a key wins and a key whose last value is null is absent. |
| `JsonMeaning.BlanksIrrelevant` | container_images/bentoml-monitor-exporter/conf/json.lua:169-176 | Removing all white space between tokens of an accepted text does not change its value. |
| `JsonMeaning.UnicodeEscapes` | container_images/bentoml-monitor-exporter/conf/json.lua:193-258 | A string spelled in \u escapes, with surrogate pairs above U+FFFF, decodes to the UTF-8 of its scalar values, from which they can be recovered. |
| `JsonMeaning.ApostropheEscapeFails` | container_images/bentoml-monitor-exporter/conf/json.lua:245-248 | After any valid start of a string an escaped apostrophe is an error, although it passes the escape test of line 159. |
| `JsonSurrogates.GrammaticalString` | container_images/bentoml-monitor-exporter/conf/json.lua:239-248 | A string with arbitrary \u escapes is accepted if and only if no merged pair exceeds U+10FFFF, and then means the merged string. |
| `JsonUnpaired.GrammaticalTextExact` | container_images/bentoml-monitor-exporter/conf/json.lua:388-398 | A whole text of the RFC grammar, with arbitrary \u escapes in its strings and keys, is accepted if and only if no merged pair exceeds U+10FFFF, and then denotes the value of the tree with the pairs merged. |
| `JsonSurrogates.UnpairedSurrogates` | container_images/bentoml-monitor-exporter/conf/json.lua:210-219 | Two concrete strings: an unpaired surrogate swallows the next escape, and a grammatical string is refused. |
| `JsonDecoder.NextChar` | container_images/bentoml-monitor-exporter/conf/json.lua:169-176 | The scanning loop returns the first index whose byte is in the set, or outside it when negated, or the end. |
| `JsonDecoder.Match` | container_images/bentoml-monitor-exporter/conf/json.lua:240-241 | The anchored match of a pattern succeeds if and only if each position is in its class. |
| `JsonDecoder.PairMatches` | container_images/bentoml-monitor-exporter/conf/json.lua:240 | The longer pattern matches if and only if an escaped high surrogate is followed by another escape. |
| `JsonDecoder.ParseUnicodeEscape` | container_images/bentoml-monitor-exporter/conf/json.lua:210-219 | One escape gives its code point, two give that of the pair, or none above U+10FFFF. |
| `JsonDecoder.ParseEscape` | container_images/bentoml-monitor-exporter/conf/json.lua:237-252 | An escape is read by pattern match or table lookup exactly as specified, with each of its four errors. |
| `JsonDecoder.ParseString` | container_images/bentoml-monitor-exporter/conf/json.lua:222-261 | The loop over plain runs and escapes computes exactly the specified string, next index or error. |
| `JsonDecoder.ParseNumber` | container_images/bentoml-monitor-exporter/conf/json.lua:271-279 | The token up to the next delimiter is read as a number or refused. |
| `JsonDecoder.ParseLiteral` | container_images/bentoml-monitor-exporter/conf/json.lua:282-289 | The token up to the next delimiter is true, false or null, or refused. |
| `JsonDecoder.ParseArray` | container_images/bentoml-monitor-exporter/conf/json.lua:292-316 | The element loop computes exactly the specified table, next index or error. |
| `JsonDecoder.ParseMember` | container_images/bentoml-monitor-exporter/conf/json.lua:329-341 | A key, a colon and a value are read exactly as specified, with each error at its place. |
| `JsonDecoder.ParseObject` | container_images/bentoml-monitor-exporter/conf/json.lua:319-353 | The member loop computes exactly the specified table, next index or error. |
| `JsonDecoder.Parse` | container_images/bentoml-monitor-exporter/conf/json.lua:378-385 | The dispatch on the first byte computes the specified value or error. |
| `JsonDecoder.Decode` | container_images/bentoml-monitor-exporter/conf/json.lua:388-398 | decode computes the specified value, and refuses trailing bytes. |
| `HeapGraphs.SweepExact` | container_images/bentoml-monitor-exporter/conf/json.lua:63-102 | A depth-first walk with a set of open tables gets through if and only if the reachable tables are fine and none lies on a cycle. |
| `JsonEncodable.ItemsOfSound` | container_images/bentoml-monitor-exporter/conf/json.lua:105-107 | The printed form of any byte string is a JSON string that stands for it. |
| `JsonEncodable.EncodeGood` | container_images/bentoml-monitor-exporter/conf/json.lua:128-136 | Encoding under any set of open tables succeeds if and only if the walk from the value does. |
| `JsonEncodable.EncodeExact` | container_images/bentoml-monitor-exporter/conf/json.lua:63-140 | encode succeeds if and only if every reachable table has an acceptable shape, no reachable value has an unexpected type and no reachable table lies on a cycle. |
| `JsonPrinting.ShapeExact` | container_images/bentoml-monitor-exporter/conf/json.lua:63-102 | A table of acceptable scalars is encodable by itself if and only if, when it is empty or has the key 1, all its keys are numbers and as many as its border, and otherwise all are strings. |
| `JsonPrinting.FailureExplained` | container_images/bentoml-monitor-exporter/conf/json.lua:63-136 | When encode fails, the value or a reachable table has the very fault the error names: it lies on a cycle, mixes keys, is sparse, or holds a number that is not finite or a value of another type. |
| `JsonPrinting.ShortestString` | container_images/bentoml-monitor-exporter/conf/json.lua:54-56 | No JSON string that stands for the same bytes is shorter than the printed one. |
| `JsonPrinting.EscapesInLowerCase` | container_images/bentoml-monitor-exporter/conf/json.lua:54-56 | Escapes are printed without capital letters. |
| `JsonPrinting.Integers` | container_images/bentoml-monitor-exporter/conf/json.lua:110-116 | Integers are printed in decimal, digit by digit without leading zeros, with a minus only below zero. |
| `JsonPrinting.EmptyTable` | container_images/bentoml-monitor-exporter/conf/json.lua:72-89 | An empty table is printed as an array. |
| `JsonPrinting.TwoFields` | container_images/bentoml-monitor-exporter/conf/json.lua:91-101 | The fields of an object are printed in the order `pairs` yields them, key, colon and value, with a comma between. |
| `JsonRoundTrip.RepresentsUnique` | container_images/bentoml-monitor-exporter/conf/json.lua:63-102 | A heap value unfolds to at most one tree, so shared tables count as copies. |
| `JsonRoundTrip.EncodePrints` | container_images/bentoml-monitor-exporter/conf/json.lua:128-136 | A successful encoding is the text of a JSON tree, whose value is the encoded one if and only if no reachable table hides entries. |
| `JsonRoundTrip.EncodeIsJson` | container_images/bentoml-monitor-exporter/conf/json.lua:138-140 | Whatever encode returns is a text of the grammar of RFC 8259, read byte by byte: bytes above 127 may stand in any order. |
| `JsonUtf8.EncodeIsRfcExact` | container_images/bentoml-monitor-exporter/conf/json.lua:105-140 | The output is an RFC 8259 text, UTF-8 included, if and only if the encoded string, or every string and key of a reachable table that is printed, is UTF-8. |
| `JsonUtf8.StringUtf8` | container_images/bentoml-monitor-exporter/conf/json.lua:105-107 | The printed form of a string is UTF-8 if and only if the string is. |
| `JsonUtf8.RawByteIsNotUtf8` | container_images/bentoml-monitor-exporter/conf/json.lua:105-107 | A string of one byte 255 is encoded without error to a text that is not UTF-8. |
| `JsonRoundTrip.RoundTrip` | container_images/bentoml-monitor-exporter/conf/json.lua:63-140 | decode(encode(v)) succeeds, and is v if and only if every reachable array-like table has only the entries before its first hole. |
| `JsonRoundTrip.RoundTripWithin` | container_images/bentoml-monitor-exporter/conf/json.lua:378-385 | Inside a larger text, followed by a delimiter or nothing, the encoding parses to the same value and up to its last byte. |
| `JsonRoundTrip.SparseTableLosesEntries` | container_images/bentoml-monitor-exporter/conf/json.lua:72-89 | A concrete table is accepted as an array and loses two of its entries. |
| `JsonEncoder.EncodeValue` | container_images/bentoml-monitor-exporter/conf/json.lua:128-136 | The recursive printer with its shared stack computes the specified text or error and restores the stack on success. |
| `JsonEncoder.EncodeTableValue` | container_images/bentoml-monitor-exporter/conf/json.lua:63-102 | The two loops over a table compute the specified text or error; an open table is a circular reference; the stack is restored on success. |
| `JsonEncoder.EncodeTop` | container_images/bentoml-monitor-exporter/conf/json.lua:138-140 | encode starts with no open table. |
| `Names.RunnerServiceNameFits` | controllers/handleService.go:230-258 | Every runner Service name has at most 63 characters. |
| `Names.TooLongExact` | controllers/handleService.go:239-256 | The hashed form is taken if and only if the BentoDeployment's name has more than 23 (generic) or 21 characters. |
| `Names.ServiceNamesDistinct` | controllers/handleService.go:230-282 | Within one BentoDeployment two Services of different runners or roles never share a name, even when only some take the hashed form. |
| `Names.NamesDistinctExact` | controllers/handleService.go:230-282 | All Service names differ if and only if the hashes that are in use differ between runners and none of them makes up the BentoDeployment's own name. |
| `Names.HashedMeetsPlain` | controllers/handleService.go:239-256 | A hashed Service name equals a name in the plain form only when it is the bare name of a BentoDeployment. |
| `Names.KubeNamesDistinct` | controllers/handleOthers.go:121-136 | Within one BentoDeployment two Deployments of different components or target types never share a name. |
| `Names.DecimalRoundTrip` | controllers/handleOthers.go:126-128 | The decimal form of a runner's index determines the index and consists of digits. |
| `Generators.GetKubeName` | controllers/handleOthers.go:121-136 | The search over the Bento's runners finds the first index of the runner and builds the specified name. |
| `Generators.GetKubeLabels` | controllers/handleOthers.go:138-167 | The loops that fill the label map leave the generated labels, overridden by the first matching user labels. |
| `Generators.GetResourceAnnotations` | controllers/helper.go:85-103 | The search finds the annotations of the first entry for the runner; an unlisted runner gets none, the API server the BentoDeployment's own. |
| `Generators.CheckIfContainsStealing` | controllers/helper.go:129-139 | True if and only if the BentoDeployment or any of its runner entries has the stealing annotation set to true. |
| `Generators.GeneratePodLabels` | controllers/handleDeployment.go:293-300 | The label map of a pod as it is grown step by step, ending with the selector label and the user's extra pod labels. |
| `Generators.GenerateSelector` | controllers/handleService.go:294-319 | The selector map as it is copied, overwritten and deleted from. |
| `Generators.GenerateRunnerServices` | controllers/handleDeployment.go:525-544 | The loop over the Bento's runners picks the Service each one is reached by. |
| `Plans.RunSettles` | controllers/bentodeployment_controller.go:293-392 | A run of steps of which no two disagree about an object leaves every one of its objects settled. |
| `Plans.RunFrame` | controllers/bentodeployment_controller.go:293-392 | A run of steps leaves every object alone that none of them is about. |
| `Plans.RunFixed` | controllers/handleService.go:189-221 | Steps that are all settled change nothing, one after the other. |
| `Convergence.RolesExact` | controllers/bentodeployment_controller.go:293-392 | A run has a step for exactly the Deployments, HPAs, Services, Ingress and proxy configurations of the API server and of the Bento's runners. |
| `Convergence.KeysDistinct` | controllers/handleOthers.go:121-136 | Steps for different roles are about different objects. |
| `Convergence.PlanConsistent` | controllers/bentodeployment_controller.go:293-392 | No step of a run undoes another. |
| `Convergence.Converges` | controllers/bentodeployment_controller.go:293-392 | From any cluster state a complete run leaves every managed object equal to the desired one, or absent as the debug flags say, and touches nothing else. |
| `Progress.RunnersComeFirst` | controllers/bentodeployment_controller.go:293-392 | In a run that stops anywhere, once an object of the API server has changed everything of the runners is settled. |
| `Progress.ConfigComesFirst` | controllers/handleDeployment.go:98-114 | In a run that stops anywhere, once a Deployment of the API server has changed the configuration of its proxy is in place. |
| `Contents.DebugObjectsExact` | controllers/helper.go:129-139 | After a complete run the debug Deployment of the API server and its `-p` and `-d` Services exist, and its generic Service leads to the proxy, if and only if the BentoDeployment or some runner entry has the stealing annotation set to true. |
| `Contents.RunnerDebugObjectsExact` | controllers/handleDeployment.go:53-96 | After a complete run the debug Deployment and the production and debug Services of a runner exist if and only if the first entry for it has the annotation. |
| `Contents.KubeNameSpelled` | controllers/handleOthers.go:121-136 | Deployments are named like the BentoDeployment, with `-d`, `-runner-` or `-runner-d-` and the index of the runner. |
| `Contents.ServiceNameSpelled` | controllers/handleService.go:230-282 | Each Service is named by role, runner and length of the name, with the text that is hashed. |
| `Contents.LabelsSpelled` | controllers/handleOthers.go:138-167 | An object's labels are the user's, of the runner's entry if there is one, and the standard ones for all other keys. |
| `Contents.PodLabelsSpelled` | controllers/handleDeployment.go:265-300 | A pod's labels: the extra pod labels, its Deployment's name, the target type of a debug pod, the Bento of a runner, and otherwise its component's. |
| `Contents.SelectorSpelled` | controllers/handleService.go:294-319 | A Service selects by its component's labels; the target type is `debug` for the debug Service and absent from the generic one of the API server and of runners whose debug pods may receive production traffic. |
| `Contents.DeploymentSpelled` | controllers/handleDeployment.go:189-336 | A Deployment that exists has its component's labels, selects by its own name, and its pods have the port and service account of the component's own entry, with their defaults. |
| `Contents.ApiPodsSpelled` | controllers/handleDeployment.go:525-544 | Only the API server has a proxy, on the default port plus 4, names the Services of all runners in order, and has the variables of an enabled exporter. |
| `Contents.ProxySpelled` | controllers/handleDeployment.go:823-860 | The configuration of each proxy: requests of its own kind go to the main container, the others to the Service of the other kind. |
| `Contents.IngressSpelled` | controllers/handleIngress.go:163-189 | The Ingress exists if and only if it is enabled, and a new one has a host made of name, namespace and domain suffix. |
| `Contents.HpaSpelled` | controllers/handleHPA.go:132-202 | The HPA of a component has its labels and scales its production Deployment. |
| `Contents.ServiceSpelled` | controllers/handleService.go:284-357 | A Service that exists has its component's labels and leads to the main container, but for the generic one of an API server that is being debugged. |
| `Repetition.StartDoesNotMatter` | controllers/handleIngress.go:122-123 | Runs from two starting states, each with its own visits of the exporter's options and lists of service accounts, lead to the same managed objects, up to the host of the Ingress and, where these are not fixed, the order of the exporter's variables and the service account. |
| `Repetition.IdempotentExact` | controllers/handleDeployment.go:152-184 | After a complete run no part of a second one with unchanged inputs changes anything, for every order of visiting the exporter's options and listing the service accounts, if and only if the exporter is off or its remaining options all give one variable, and every component names its account unless there are not two to choose from. |
| `Repetition.TwoOptionsUpdate` | controllers/handleDeployment.go:974-982 | With the options a=1 and b=2 some order makes the second run update the API server. |
| `Repetition.SomeListUpdates` | controllers/handleDeployment.go:1139-1153 | When a component names no account and two are labelled for pods, some order of the list makes the second run update its Deployment. |
| `ExporterEnv.GenerateVars` | controllers/handleDeployment.go:962-982 | The two loops give the structure options in order, followed by the options that none of them shadows, in some order that visits each option once. |
| `ExporterEnv.VarsSpelled` | controllers/handleDeployment.go:962-982 | First the structure options in order, name in upper case after the prefix, then the variables of the options whose names no structure option has in any case, and no others. |
| `ExporterEnv.SameVars` | controllers/handleDeployment.go:974-982 | Two visits of the options give the same variables, each as often. |
| `ExporterEnv.VisitsAgreeExact` | controllers/handleDeployment.go:974-982 | All visits give the same list if and only if the remaining options all give one variable. |
| `ExporterEnv.OrderFreeIsAtMostOne` | controllers/handleDeployment.go:974-982 | Where the names of the remaining options differ by more than case, that means that at most one remains. |
| `ExporterEnv.TwoCasesAgree` | controllers/handleDeployment.go:974-982 | Two options whose names differ in case only and whose values are the same give one list, so at most one option is not necessary. |
| `ExporterEnv.TwoOptionsDisagree` | controllers/handleDeployment.go:974-982 | Two concrete options give two different lists, whatever upper and lower case are. |
| `Convergence.ServicesPresent` | controllers/handleService.go:47-132 | After a complete run a generic Service exists always, a production or debug one if and only if debugging is wanted for the component. |
| `Convergence.ReferencesResolve` | controllers/handleDeployment.go:525-544 | Every runner Service named by a production API server exists; a debug API server's reference exists if and only if the runner is in stealing mode. |
| `Convergence.TargetsExist` | controllers/handleHPA.go:132-202 | After a complete run every HPA scales the existing production Deployment of its component, and the Ingress, present if and only if enabled, leads to the existing generic Service. |
| `Convergence.SelectorsExclusive` | controllers/handleDeployment.go:265-279 | Without a user override of the selector label, a Deployment's selector matches a pod template of the BentoDeployment if and only if it is its own. |
| `Convergence.PlanHostSafe` | controllers/handleIngress.go:68-153 | While ingress is enabled every part of a run keeps an existing Ingress and its host. |
| `Convergence.TlsHostDiverges` | controllers/handleIngress.go:122-123 | The TLS host agrees with the rule's host after a run if and only if the stored host is the one generated now. |
| `Isolation.KeysMeetExact` | controllers/handleService.go:96-130 | Two BentoDeployments of one namespace share an object if and only if the name of one is a name the operator makes from the other's, hashed forms included, or a runner Service of each takes the hashed form with the same hash. |
| `Isolation.ReconcilesCommute` | controllers/handleDeployment.go:76-94 | Runs of two BentoDeployments, complete or cut short, commute unless one's name is made from the other's or they share a hashed Service. |
| `Isolation.DebugNameIsDeleted` | controllers/handleDeployment.go:76-94 | A run of `x` without debugging removes the main Deployment of `x-d`. |
| `Isolation.HashedNamesShared` | controllers/handleService.go:239-256 | Two BentoDeployments whose names and repositories split the same text differently share a hashed runner Service. |
| `Routing.ServiceSelectsExact` | controllers/handleService.go:294-319 | Without user labels on reserved keys a Service selects a pod if and only if it belongs to the same component and target type, and the component's labels and extra pod labels agree. |
| `Routing.ServicePicksExact` | controllers/handleService.go:294-319 | After a complete run a Service of any component forwards to exactly the pods of the component's own present Deployments of the right target type. |
| `Routing.RunnerCallsArrive` | controllers/handleDeployment.go:525-544 | Calls of a debug API server to a runner in stealing mode reach its debug pods only; calls of a production one reach its production pods, and its debug pods if and only if they may receive production traffic. |
| `Routing.ProxyDecides` | controllers/handleDeployment.go:823-846 | The proxy of a pod serves the requests of its own kind locally and sends the others to the Service of the other kind. |
| `Routing.RequestsArrive` | utils/envoy.go:51-93 | With stealing mode on anywhere, whichever pods are picked, every request to the generic Service ends in the main container of a debug pod if it has the debug header and of a production pod otherwise, after at most one hop from a proxy to a Service, and is never stuck. |
| `Routing.RequestsArriveExact` | utils/envoy.go:51-93 | With stealing mode on, no user label on a reserved key and no other Deployment posing as the API server, all requests to the generic Service arrive, whichever pods are picked, if and only if the component's labels and extra pod labels agree and its server does not listen on the proxy's port. |
| `Reconciler.Controller.CreateOrUpdate` | controllers/handleService.go:134-228 | Afterwards the object is as generated, unless an error left it alone; nothing is written when it already was; modified tells whether it changed. |
| `Reconciler.Controller.CreateOrUpdateDeployment` | controllers/handleDeployment.go:98-187 | Takes the steps of the proxy configuration (API server only) and of the Deployment, in this order, or a first part of them on error; modified if and only if the Deployment changed. |
| `Reconciler.Controller.CreateOrUpdateOrDeleteDeployments` | controllers/handleDeployment.go:53-96 | Takes the steps of the production and the debug Deployment, the latter a deletion unless debugging is wanted; modified if and only if the debug Deployment changed or, only while debugging is not wanted, the production one did. |
| `Reconciler.Controller.CreateOrUpdateHPA` | controllers/handleHPA.go:45-130 | Takes the step of the HPA. |
| `Reconciler.Controller.CreateOrUpdateOrDeleteServices` | controllers/handleService.go:47-132 | Takes the steps of the generic, production and debug Services; modified if and only if something changed, provided that their names differ (which `Runs.ServicesAreDistinct` derives from distinct names). |
| `Reconciler.Controller.CreateOrUpdateIngresses` | controllers/handleIngress.go:47-161 | Creates the Ingress, keeps the host of an existing one, or deletes it when ingress is disabled. |
| `Reconciler.Controller.SetStatusConditions` | controllers/handleOthers.go:50-75 | Up to three attempts: success means the conditions are set and the others kept; on error they are set or the status is as before. |
| `Reconciler.Controller.ReconcileRunners` | controllers/bentodeployment_controller.go:295-338 | The loop over the Bento's runners takes all their steps in order, or a first part of them on error. |
| `Reconciler.Controller.ReconcileApiServer` | controllers/bentodeployment_controller.go:340-392 | The four calls for the API server take its steps in order, or a first part of them on error. |
| `Reconciler.Controller.ReconcileObjects` | controllers/bentodeployment_controller.go:293-565 | Available=True is written only after every step has been taken. |
| `Reconciler.Controller.AwaitBento` | controllers/bentodeployment_controller.go:178-274 | Without the Bento no object is touched, neither Available nor BentoFound becomes True, and the conditions after no error, or after no fault, are given exactly: the Bento missing, the BentoRequest found, and Available=False if there will be no Bento. |
| `Reconciler.Controller.Reconcile` | controllers/bentodeployment_controller.go:94-565 | One run takes a first part of the plan; BentoFound=True is reported before the first step, Available=True only after the last, and besides Available=False nothing else; no error is returned unless the plan is complete and Available=True, or Available=False is written, or the Bento is missing; the conditions after a run without faults are given exactly, with the Bento and without; a single failed call after the conditions are initialised is never returned as an error while the Bento is there; nothing is written when no step changes anything. |
| `Reconciler.Controller.CleanUp` | controllers/handleService.go:359-425 | The clean-up deletes only abandoned runner Services of the listed namespaces, and all of them if no call fails. |
| `Reconciler.TrailDone` | controllers/bentodeployment_controller.go:293-392 | The cluster after a run that stopped anywhere is the start followed by a first part of the plan. |
| `Runs.AvailableWasEarned` | controllers/bentodeployment_controller.go:137-565 | Over any history of runs, faults and crashes, Available=True means that some run applied every object, and that it has been reported ever since. |
| `Runs.FoundAfterRun` | controllers/bentodeployment_controller.go:178-292 | A run that touches an object reports the Bento as found, and only a run that sees the Bento reports it newly. |
| `Runs.FoundWasSeen` | controllers/bentodeployment_controller.go:178-292 | Over any history, BentoFound=True means that some run saw the Bento, and that it has been reported ever since. |
| `Runs.UntouchedUntilFound` | controllers/bentodeployment_controller.go:178-292 | Over any history, no object is touched as long as the Bento is not reported as found. |
| `Runs.NoErrorMeansConvergedOrReported` | controllers/bentodeployment_controller.go:137-154 | A run that returns no error has converged and reports Available=True and BentoFound=True, or reports Available=False. |
| `Runs.OneGoodRunSuffices` | controllers/bentodeployment_controller.go:293-392 | After any history of failed, aborted and crashed runs one run without faults converges and reports it; compared with a run from any other state only the Ingress host and, where these are not fixed, the order of the exporter's variables and the service account can differ. |
| `Runs.NextRunIsQuiet` | controllers/handleService.go:189-221 | After a complete run every next one meets the condition under which `Reconcile` writes no object, whatever order it visits the exporter's options in and finds the service accounts in, if and only if the options give one list only and no component is left a choice of accounts. |
| `Runs.HostStable` | controllers/handleIngress.go:78-153 | Over any history in which ingress stays enabled the Ingress host never changes, whatever the domain suffix. |
| `Runs.RunKeepsHost` | controllers/handleIngress.go:122-123 | One run, however it ends, keeps the host of an existing Ingress. |
| `Runs.MissingBentoStaysAvailable` | controllers/bentodeployment_controller.go:178-274 | When the Bento is gone a run without faults leaves Available=True if and only if it was True and the BentoRequest is not reported unavailable; it reports the Bento as missing and the BentoRequest as found, and leaves Available unknown on a first run. |
| `Abandonment.CleanUpKeepsConverged` | controllers/handleService.go:386-422 | The clean-up leaves a converged BentoDeployment converged, as long as no user label has the runner key. |
| `Abandonment.CleanUpSpelled` | controllers/handleService.go:359-425 | A complete clean-up deletes exactly the Services of the listed namespaces that have the runner label, are old enough and match no pod of their namespace. |
| `Autoscaling.LastWins` | apis/serving/v1alpha3/bentodeployment_conversion.go:42-81 | For each kind of setting the last qualifying metric of the list wins. |
| `Autoscaling.TransformToOldHPA` | apis/serving/v1alpha3/bentodeployment_conversion.go:32-83 | The loop over the metrics returns the replica bounds and the last qualifying value of each kind; no settings stay no settings. |
| `Autoscaling.OldSpelled` | apis/serving/v1alpha3/bentodeployment_conversion.go:32-83 | Each setting is that of the last metric of its kind with a target, and absent if there is none. |
| `Autoscaling.TransformToNewHPA` | apis/serving/v1alpha3/bentodeployment_conversion.go:85-170 | The metrics of the positive settings in order, or the CPU default if there are none, and the bounds with their defaults; an error if and only if a memory text does not parse. |
| `Autoscaling.MetricsSpelled` | apis/serving/v1alpha3/bentodeployment_conversion.go:85-170 | Every metric of the result is for requests, CPU or memory, and holds the value of that setting, for memory the parsed quantity. |
| `Autoscaling.NewSpelled` | apis/serving/v1alpha3/bentodeployment_conversion.go:85-170 | A metric of each kind is there if and only if its setting qualifies, CPU also when none does; each kind once and in order; the replica bounds default to 2 and the maximum. |
| `Autoscaling.RoundIs` | apis/serving/v1alpha3/bentodeployment_conversion.go:32-170 | One round fills in replica defaults, drops settings that are not positive, memory and GPU, and adds the CPU default if no metric was set. |
| `Autoscaling.TwoRoundsExact` | apis/serving/v1alpha3/bentodeployment_conversion.go:32-170 | A second round changes nothing if and only if the input was not memory-only. |
| `Autoscaling.RoundsStabilise` | apis/serving/v1alpha3/bentodeployment_conversion.go:32-170 | From the second round on nothing changes any more. |
| `Autoscaling.FixedExact` | apis/serving/v1alpha3/bentodeployment_conversion.go:32-170 | Settings survive a round through v2alpha1 if and only if both replica bounds are set, memory and GPU are not, at least one of CPU and QPS is, and those that are set are positive (or CPU is alone and the default). |
| `Autoscaling.NewFixedExact` | apis/serving/v1alpha3/bentodeployment_conversion.go:32-170 | v2alpha1 settings survive a round through v1alpha3 if and only if they have no behaviour and their metrics are those v1alpha3 settings are turned into. |
| `Conversion.TransformToNewEnvs` | apis/serving/v1alpha3/bentodeployment_conversion.go:222-234 | The loop copies every variable in order; an absent list stays absent. |
| `Conversion.TransformToOldEnvs` | apis/serving/v1alpha3/bentodeployment_conversion.go:236-255 | The loop copies the variables that have a value in order; an absent list stays absent. |
| `Conversion.EnvsRound` | apis/serving/v1alpha3/bentodeployment_conversion.go:222-255 | A round keeps exactly the variables with a value, in order. |
| `Conversion.NewEnvsRoundExact` | apis/serving/v1alpha3/bentodeployment_conversion.go:222-255 | In the other direction a list survives if and only if every variable has a value and no other source. |
| `Conversion.ConvertToV2alpha1` | apis/serving/v1alpha3/bentodeployment_conversion.go:310-351 | The loop over the runners converts every component, and fails if and only if some memory text does not parse. |
| `Conversion.NewSpecSpelled` | apis/serving/v1alpha3/bentodeployment_conversion.go:310-351 | Where each field of the result comes from, for the API server and every runner, and which fields stay empty. |
| `Conversion.FailureExact` | apis/serving/v1alpha3/bentodeployment_conversion.go:310-351 | The conversion fails if and only if some component has a memory text that does not parse. |
| `Conversion.ConvertFrom` | apis/serving/v1alpha3/bentodeployment_conversion.go:387-460 | The loop over the runners converts every component back, given the tag found for the Bento. |
| `Conversion.OldSpecSpelled` | apis/serving/v1alpha3/bentodeployment_conversion.go:387-460 | Where each field of the result comes from on the way back. |
| `Conversion.OldEnvsSpelled` | apis/serving/v1alpha3/bentodeployment_conversion.go:236-255 | Variables are converted one after the other, those without a value left out. |
| `Conversion.SpecRound` | apis/serving/v1alpha3/bentodeployment_conversion.go:310-460 | A round keeps the tag, the runners in order and the copied fields, clears annotations and labels, and normalises autoscaling (without memory and GPU) and variables. |
| `Conversion.SpecTwoRoundsExact` | apis/serving/v1alpha3/bentodeployment_conversion.go:310-460 | A second round changes nothing if and only if no component of the original is memory-only. |
| `Conversion.NewSpecRoundExact` | apis/serving/v1alpha3/bentodeployment_conversion.go:310-460 | A v2alpha1 specification survives a round through v1alpha3 if and only if the Bento gets its name back, there are no annotations, labels or monitor exporter, and in every component scaling survives, every variable has a value and no source, and pods have no extra containers and no service account. |
| `PodEnv.BuildEnvs` | controllers/handleDeployment.go:339-424 | The two loops with their set of seen names produce the user's first variables in order, by name and value only, and then the missing defaults, or an error for a bad port; the port is the user's, or else the default. |
| `PodEnv.EnvsExact` | controllers/handleDeployment.go:339-424 | Names are pairwise distinct, each variable has the user's first value, without its source, or else its default, and this fails if and only if the user's first port has no value that is a number. |
| `PodEnv.EnvsSpelled` | controllers/handleDeployment.go:339-424 | By index in the user's list: the port is the number in the first variable for it, or else the default one; the variables are the first of each name, the port and the other defaults the user does not give, and no others; the error is a first port that is no number. |
| `PodEnv.FirstsInOrder` | controllers/handleDeployment.go:345-358 | The user's variables keep the order of their first occurrences. |
| `PodEnv.SurvivesExact` | controllers/handleDeployment.go:345-358 | The user's first variable of a name reaches the container unchanged if and only if it is not given by `valueFrom`. |
| `PodEnv.AddMonitoring` | controllers/handleDeployment.go:426-462 | Monitoring changes only the options variable, which moves to the end; the others stay in order; options that mention monitoring stay as they are. |
| `PodEnv.MonitoringMentioned` | controllers/handleDeployment.go:440-459 | Afterwards the options mention monitoring, so adding it again changes nothing, and the user's text is kept. |
| `PodEnv.MonitoringSpelled` | controllers/handleDeployment.go:426-462 | The name of the variable, the text that is added, and where it is added to the options the user gave. |
| `PodEnv.ContainsExact` | controllers/handleDeployment.go:448 | A text mentions a word if and only if it is the word with something before and after it. |
| `PodEnv.GenerateEnvs` | controllers/handleDeployment.go:339-462 | Both together: distinct names, the port as the user gives it, the same variables but the options, and the options with monitoring when it is needed. |

## Left out

JSON codec

- JsonRoundTrip.RoundTrip: numbers are integers with |n| < 10^14; `%.14g` loses digits beyond that and for fractions, and NaN and infinities are the error case only.
- Numerals.ToNumberExact: hexadecimal and other forms that Lua's `tonumber` takes besides decimal ones, and its tolerance for white space inside a token, are not modelled.
- JsonSound.SoundParse: speaks of decimal numbers only, for the same reason.
- JsonSound.DecodeExact: likewise; the original also accepts tokens such as `0x10`.
- JsonDecoder.ParseNumber: likewise refuses such tokens.
- JsonDecoder.Decode: numbers are exact rationals rather than doubles, and of an error message only the kind and the index are kept, not the line and column text.
- Lua metatables, and strings longer than memory.

Reconciler

- Reconciler.Controller.Reconcile: events, logging and the `modified` flag that only selects an event; the synchronisation with Yatai is two calls that may fail; the specification does not change while a run is under way, and nobody else writes the managed objects or the status during or between the runs of a history.
- Reconciler.Controller.CreateOrUpdateIngresses: a stored Ingress has a rule, as every generated one does; one without rules makes the original panic.
- Routing.RequestsArrive: pods are those of the current templates, not of an older ReplicaSet during a roll-out; port clashes within a pod other than with the proxy are not modelled.
- Isolation.ReconcilesCommute: says that runs commute when no object is shared; whether two runs that share one still commute is not decided here.
- Convergence.Converges: covers the current runner list; objects of runners that have left the Bento are not deleted by the original and not spoken of here. Annotations, and the other fields of the objects that are not named in `Desired`, are one opaque text per component; a runner without an entry in the specification shares the text of the BentoDeployment, where the original has fixed defaults for its HPA and environment.
- Repetition.IdempotentExact: everything else that is read from the environment or from Yatai counts as an input that is unchanged, the set of labelled service accounts included.
- Label keys and other constants of yatai-common are not part of this model; the reserved label keys are assumed to be distinct.
- The reading of the cluster configuration, domain suffix and Ingress settings, which are parameters or calls that may fail.
- Helm charts, probes, images, security contexts, resource defaults, the volumes and the commands of containers: constants or plumbing.

Conversions

- PodEnv.AddMonitoring: the original removes the entry in place from a slice nobody else holds; here the list is a value, so aliasing is not captured.
- Conversion.ConvertFrom: the lookup of the Bento's tag by name is a parameter, and `SpecRound` supposes that it returns the tag the request was made with.
- `ConvertFrom` of v1alpha1 and v1alpha2 copies from an empty value, so there is no round trip to state.
