# FastStream: verified models of its core

FastStream connects message handlers to brokers. This project models the parts of it that
compute: how routers form a tree and read their options through it, how a routing key is matched,
how address templates are parsed and matched, how Kafka keys stay with their bodies, how ids are
drawn, how scoped values come and go, and how one message runs through its middlewares, is counted,
linked and settled. Each part is written in the form of the code, classes and loops where it changes
state, functions where it computes, and proved against a specification that does not mention the
code. `dafny verify dfyconfig.toml` checks everything.

| file | models |
|---|---|
| `Registrators.dfy`, `RouterSubscribers.dfy` | the tree that `include_router` changes in place, its flattened lists |
| `BrokerConfigs.dfy`, `RouterOptions.dfy`, `RouterInclusions.dfy` | compositions nested by live references, against a walk from the root, and what one inclusion does to every option |
| `TopicPattern.dfy` | the topic matcher of the RabbitMQ test broker, against AMQP 0-9-1 |
| `AddressTemplates.dfy`, `ParameterNames.dfy`, `AddressCaptures.dfy` | template escaping, scanning, compiling, capturing |
| `MatchReading.dfy`, `BrokerSyntaxes.dfy`, `BrokerWildcards.dfy` | the ordered matcher item by item, and each broker's wildcards and symbols |
| `CaptureSoundness.dfy`, `PrefixCaptures.dfy` | what captures say about the subject, and what a router prefix does to them |
| `MqttAddresses.dfy`, `MqttCaptures.dfy` | MQTT's guard, and topics with wildcards from declaration to captures |
| `KafkaKeys.dfy` | per-message keys under rewrites of the batch |
| `Nuid.dfy` | the NUID generator |
| `Contexts.dfy`, `ContextGlobals.dfy`, `ContextMerges.dfy` | context repositories, scope blocks, compositions, merging of injection configs |
| `Processing.dfy` | `process_msg`, a subscriber's `process_message`, publishing and requests |
| `Acknowledgements.dfy`, `AckMiddleware.dfy` | write-once settling for each broker, the acknowledgement middleware |
| `Metrics.dfy`, `SpanLinks.dfy` | Prometheus conservation under interleaving, batch span links |
| `Errors.dfy`, `Wrappers.dfy` | exceptions by class, `Option` and `Result` |

## What the proofs found

- The topic matcher is sound for patterns of non-empty words; an empty word after the first makes it
  stop early and accept keys it should not (`SoundIff`). It agrees with AMQP on all keys only for `#`
  alone and for patterns with neither `#` nor empty words (`ExactIff`).
- `realign_keys` uses `None` both as a body and as "not seen yet": repeated `None` bodies collapse into
  one key (`KeysFollowIff`), a keyed `None` in front of a batch shifts all keys by one
  (`LeadingTombstoneSlips` in a new command, `FrontNoneSlips` in a rewrite), and after a batch with
  keys was emptied every non-empty one is refused (`EmptiedBatchRejects`). `StepFollowsIff` with
  `TidyClosed` gives the exact condition. The docstring of `extract_per_message_keys_and_bodies`
  (faststream/_internal/kafka/keys.py:39-43) says that bodies are unwrapped whenever a Response is
  present; the code does so only when one of them has a key, and the model follows the code.
- A router prefix keeps the captures exactly of the subjects that the pattern matches from their start, or
  not at all (`PrefixKeepsIff`); what is matched only after a skip is lost with some prefix, as in
  `PrefixLosesSkipped`. An MQTT address is prefixed after its guard, so a prefix that does not end a level
  makes a leading parameter share one (`PrefixedWholeIff`, `PrefixSharesLevel`).
- `clear` inside a scope block makes leaving the block fail, always (`RunFailsIff`).
- `include_router` does not check for cycles; `ForestIff` gives the exact condition.
- MQTT's guard scans the raw topic, so a literal brace beside a parameter hides it (`GuardMisses`).
- `process_msg` nests consume scopes opposite to a subscriber (`OppositeOrders`).
- A cancelled message that nobody settled is counted as acked (`StatusIff`). The status counted for a
  handler's request is a guess at what happens later: it is wrong for an instance of a subclass, counted
  as an error, for rejections of manual Kafka and MQTT messages, which end as acknowledgements, for a
  nack with MQTT, which settles nothing, and where the broker refuses (`PredictsRequestIff`). Kafka
  messages that the client commits by itself count as acked even when their handler raises
  (`SettledFromTheStart`).

## Model

| member | source | states |
|---|---|---|
| Registrators.Registrator.constructor | faststream/_internal/broker/registrator.py:26-44 | a new registrator stands alone: no parent, no routers, and a composition of just its own config |
| Registrators.Registrator.SetParent | faststream/_internal/broker/registrator.py:117-126 | leaving another parent takes the router out of that parent's list and shrinks its configs to its own one; setting the same parent again changes nothing |
| Registrators.Registrator.IncludeRouter | faststream/_internal/broker/registrator.py:92-115 | for every forest, including a router that is not above the receiver gives the forest that the state function `Include` describes: the whole new state of every registrator, and still a valid forest; what the keyword arguments come to is `RouterInclusions.IncludeAndAnswer` |
| Registrators.Registrator.Attach | faststream/_internal/broker/registrator.py:102-126 | what the call changes on each registrator, and that nothing else changes: old parent, new parent, and the router's parent and configs |
| Registrators.Registrator.Layer | faststream/_internal/broker/registrator.py:106-114 | the parent's live composition ends up in front, then the include options unless they are falsy, then what was there |
| Registrators.Registrator.Subscriber | faststream/_internal/broker/registrator.py:70-79 | registering a subscriber adds it once to its own registrator and keeps the forest |
| Registrators.StillForest | faststream/_internal/broker/registrator.py:92-126 | one inclusion keeps the forest: unique parents, each router listed once by exactly its parent, paths without cycles, configs of exactly three kinds with the own config last |
| RouterSubscribers.RunsKeepTheForest | faststream/_internal/broker/registrator.py:92-126 | every run of creations, registrations and inclusions keeps the forest and registers each subscriber once |
| RouterSubscribers.ProgramsStartEmpty | faststream/_internal/broker/registrator.py:26-46 | so every program that starts from nothing is in a forest at each point |
| RouterSubscribers.ForestIff | faststream/_internal/broker/registrator.py:92-126 | the call the code does not check: a new inclusion leaves a forest, under any choice of paths, exactly if the router is not above the receiver |
| BrokerConfigs.ConfigComposition.AddConfig | faststream/_internal/configs/broker.py:92-93 | the new config comes in front of all others |
| BrokerConfigs.ConfigComposition.Reset | faststream/_internal/configs/broker.py:95-96 | only the last config, the own one, stays |
| RouterOptions.MergedFollowsWalk | faststream/_internal/configs/broker.py:174-188 | prefix, middlewares and dependencies, looked up through live compositions, are those of a plain root-to-leaf list of configs, outermost first; a skipped falsy options config makes no difference |
| RouterOptions.InSchemaFollowsWalk | faststream/_internal/configs/broker.py:178-180 | `include_in_schema` is the conjunction over the walk |
| RouterOptions.LastFollowsWalk | faststream/_internal/configs/broker.py:158-164 | the acknowledgement policy is the one set nearest to the router |
| RouterOptions.FirstFollowsWalk | faststream/_internal/configs/broker.py:137-156 | parser, decoder and codec are the outermost ones that are set |
| RouterOptions.ExtraContextFollowsWalk | faststream/_internal/configs/broker.py:167-172 | extra context is merged from the root down, inner entries overwriting |
| RouterOptions.RootFollowsWalk | faststream/_internal/configs/broker.py:85-125 | producer and the other broker options are the root's own, however deep the nesting |
| RouterOptions.OptionsFollowWalk | faststream/_internal/configs/broker.py:84-188 | all looked-up options of every registrator of a valid forest at once, against the walk |
| RouterOptions.WalkSplits | faststream/_internal/configs/broker.py:84-188 | the walk to a descendant is the walk to the router followed by the part below it |
| RouterOptions.MoveSwapsAncestors | faststream/_internal/broker/registrator.py:101-126 | moving a router swaps, in the walk of every descendant, the ancestors' part for the new parent's walk and the new include options; all other walks are unchanged |
| RouterInclusions.IncludeAndAnswer | faststream/_internal/broker/registrator.py:92-115 | after a call that attaches a router, its prefix, middlewares and dependencies are the receiver's, then the call's arguments, then its own; it is in the schema if receiver, argument and itself allow it; every other option is its own or the receiver's as its rule says. Below the router everything adds to that what it added before, and all other answers stay; a repeated call changes none |
| RouterInclusions.RootAnswers | faststream/_internal/configs/broker.py:82-188 | a broker, and a router that is not included, answers what it was given itself |
| RouterSubscribers.Subscribers | faststream/_internal/broker/registrator.py:48-50 | the recursive read over the live routers terminates and gives the flattened list of the forest |
| RouterSubscribers.SubscribersExact | faststream/_internal/broker/registrator.py:48-50 | the list of a registrator holds exactly what is registered anywhere in its subtree, nothing twice |
| RouterSubscribers.ListedByItsRoot | faststream/_internal/broker/registrator.py:48-50 | every subscriber is listed by exactly one root, so the roots' lists conserve the whole collection |
| RouterSubscribers.RegisterLists | faststream/_internal/broker/registrator.py:46-79 | a new subscriber comes into the lists of its registrator and of everything above it, and into no other |
| RouterSubscribers.AttachedLast | faststream/_internal/broker/registrator.py:46-52 | including a router from elsewhere appends its list to the receiver's |
| RouterSubscribers.MoveMovesSubscribers | faststream/_internal/broker/registrator.py:92-126 | a move takes exactly the moved subtree's subscribers out of the lists above the old place and into those above the new one; every other entry of every list stays |
| TopicPattern.ApplyPattern | faststream/rabbit/testing.py:392-428 | the two-iterator loop terminates and answers what the recursive greedy matcher answers on the split words, for all strings |
| TopicPattern.ApplyWords | faststream/rabbit/testing.py:397-428 | the same loop on words |
| TopicPattern.WordIterator.Next | faststream/rabbit/testing.py:394-397 | reading ahead splits the remaining words into the next one and the rest, or finds none |
| TopicPattern.JoinSplit | faststream/rabbit/testing.py:394-395 | splitting loses nothing and leaves no dot in a word |
| TopicPattern.SplitJoin | faststream/rabbit/testing.py:394-395 | splitting undoes joining of dot-free words |
| TopicPattern.Sound | faststream/rabbit/testing.py:392-428 | a true answer for a pattern of non-empty words implies the match of AMQP 0-9-1 section 3.1.3.3, with any number of `#` and stars after them |
| TopicPattern.SoundIff | faststream/rabbit/testing.py:398 | for all patterns: never a wrong true answer, exactly unless the loop comes to an empty word after the first word |
| TopicPattern.ExactIff | faststream/rabbit/testing.py:392-428 | agreement with AMQP on every key, exactly for `#` alone and for patterns with neither `#` nor empty words |
| TopicPattern.MissedKey | faststream/rabbit/testing.py:402-420 | for every other pattern a concrete key that it stands for and the matcher refuses |
| TopicPattern.PlainGreedy | faststream/rabbit/testing.py:422-428 | without `#` the words are matched one to one |
| TopicPattern.PlainAmqp | faststream/rabbit/testing.py:422-428 | and AMQP means the same there |
| TopicPattern.LastHash | faststream/rabbit/testing.py:402-406 | q then `#`: q matches a beginning and at least one word is left |
| TopicPattern.HashSegment | faststream/rabbit/testing.py:402-420 | q, `#`, k stars, a literal and any rest: q matches a beginning and the rest is matched right after the first occurrence of the literal from index |q|+1+k on |
| TopicPattern.TrailingStars | faststream/rabbit/testing.py:411-418 | stars that end the pattern after a `#` make it match nothing |
| AddressTemplates.EscapeLiteralBraces | faststream/_internal/utils/path.py:184-197 | the scan pairs doubled braces from the left |
| AddressTemplates.NextMatch | faststream/_internal/utils/path.py:125 | the leftmost parameter from a position on, or none at any position |
| AddressTemplates.PrintScanIff | faststream/_internal/utils/path.py:111-154 | printing a template of literals and named parameters and scanning it is the identity exactly if no literal `}` stands right after a parameter |
| AddressTemplates.CompilePath | faststream/_internal/utils/path.py:111-154 | the loop builds, for every declaration, the pattern, broker address and duplicate report of the scanned template |
| AddressTemplates.FinishPath | faststream/_internal/utils/path.py:141-154 | duplicates are reported before anything is compiled; no regex without parameters |
| AddressTemplates.CompilePrinted | faststream/_internal/utils/path.py:111-154 | compiling a printed template: exactly its names in order, the literals with each parameter replaced, a regex exactly if there are parameters; refused exactly if a name repeats or starts with a digit |
| AddressTemplates.CompiledIff | faststream/_internal/utils/path.py:134-145 | compilation succeeds exactly for distinct names that are group names |
| ParameterNames.ParameterIff | faststream/_internal/utils/path.py:9 | text between braces is a parameter exactly if it is a run of ASCII letters, digits and underscores |
| ParameterNames.RefusedIff | faststream/_internal/utils/path.py:123-154 | which error a declaration is refused with, and exactly which names are reported as duplicates |
| AddressTemplates.TemplateOfPrinted | faststream/_internal/utils/path.py:200-206 | `template` is the text with its braces undoubled and its parameters left alone |
| AddressTemplates.PrefixReads | faststream/_internal/utils/path.py:76-81 | a brace-free prefix is read as characters in front; the rest is read as before |
| AddressTemplates.PrefixedAddress | faststream/_internal/utils/path.py:76-81 | the broker address gets the prefix in front, the parameters stay |
| AddressCaptures.FormatThenMatch | faststream/_internal/utils/path.py:157-161 | formatting a template whose parameters end their segments and matching its pattern, before any broker's patch, gives back exactly the values |
| AddressCaptures.CompiledCaptures | faststream/_internal/utils/path.py:111-161 | the same for the compiled address of any broker whose patch leaves the pattern alone |
| BrokerSyntaxes.LeftAlone | faststream/mqtt/path.py:4-10 | the five brokers' patches leave every pattern alone that has none of their wildcard characters |
| BrokerWildcards.StarMatches | faststream/redis/schemas/pub_sub.py:7-10 | with Redis and Kafka `*` between literal text matches exactly the subjects with any text on one line there |
| BrokerWildcards.RabbitHashMatches | faststream/rabbit/schemas/queue.py:16-19 | with RabbitMQ `#` matches any text of at least one character |
| BrokerWildcards.NatsRestMatches | faststream/nats/schemas/js_stream.py:197-200 | with NATS `.>` matches a dot and at least one character more |
| BrokerWildcards.MqttLevelMatches | faststream/mqtt/path.py:4-10 | with MQTT `+` matches exactly one level that is not empty |
| BrokerWildcards.MqttHashMatches | faststream/mqtt/path.py:4-10 | `#` without a separator before it matches any text on one line |
| BrokerWildcards.MqttTailMatches | faststream/mqtt/path.py:4-10 | `/#` matches nothing, or a separator and any text on one line |
| BrokerWildcards.AddressesFillIn | faststream/_internal/utils/path.py:110-154 | the broker address is the template filled with one symbol: `*` for Redis, RabbitMQ and NATS, `.*` for Kafka, `+` for MQTT |
| AddressCaptures.MatchSound | faststream/_internal/utils/path.py:118-161 | whatever is captured is in the subject: the template filled with the captures is what was matched, captures are non-empty and free of the separator |
| AddressCaptures.PatternSound | faststream/_internal/utils/path.py:118-161 | the same for the whole pattern with its leading skip, which stays on the first line |
| MatchReading.MatchReads | faststream/_internal/utils/path.py:118-161 | the matcher item by item, whatever the pattern and the subject: it matches exactly if the first item can take some characters after which the rest matches; a skip takes as few as it can, every other item as many, and a group captures just them |
| CaptureSoundness.PiecesSound | faststream/_internal/utils/path.py:118-161 | for any pattern with any broker's wildcards: a match has a piece of the subject for each item, of the form that item allows, and the captures are the pieces of the groups |
| CaptureSoundness.SkippedPiecesSound | faststream/_internal/utils/path.py:118-161 | the same behind the leading skip, which stays on the first line |
| PrefixCaptures.PrefixKeepsIff | faststream/_internal/utils/path.py:76-81 | for every pattern, patched or not, exactly for which subjects every brace-free prefix on pattern and subject keeps the captures: those matched from their start, or not matched at all |
| PrefixCaptures.PrefixKeepsCaptures | faststream/_internal/utils/path.py:76-81 | the sufficient half, for each prefix by itself |
| PrefixCaptures.LitsMatch | faststream/_internal/utils/path.py:118-131 | a literal prefix of a pattern matches itself and leaves the rest of the subject to the rest of the pattern |
| PrefixCaptures.PatchAfterPrefix | faststream/mqtt/path.py:4-10 | the brokers' patches work behind a prefix as they do without, if it has no wildcards; with MQTT, if no separator meets a `#` at the seam |
| PrefixCaptures.PrefixLosesSkipped | faststream/_internal/utils/path.py:118-119 | an example of what is lost: a subject matched only after a skip |
| PrefixCaptures.PrefixedCaptures | faststream/_internal/utils/path.py:76-92 | what `add_prefix` returns compiles and captures every value from the prefixed, filled-in template, if the broker's patch leaves the prefixed pattern alone |
| MqttCaptures.PrefixedSubjectCaptures | faststream/_internal/utils/path.py:76-92 | with MQTT's patch: a wildcard-free prefix on a topic with wildcards and on any of its subjects keeps the captures |
| AddressCaptures.Address.constructor | faststream/_internal/utils/path.py:35-43 | the template is undoubled once and nothing is compiled yet |
| AddressCaptures.Address.CompileOnce | faststream/_internal/utils/path.py:83-92 | every call gives the compilation of the declaration; success is cached, failure is not |
| AddressCaptures.Address.AddPrefix | faststream/_internal/utils/path.py:76-81 | an empty prefix returns the object itself; a brace-free one is read as characters in front, prepends to the broker address and still compiles |
| MqttAddresses.BuildMqttAddress | faststream/mqtt/path.py:13-34 | an address with the MQTT syntax exactly for topics in which every match of the parameter regex is a whole level |
| MqttAddresses.SeenIff | faststream/mqtt/path.py:21-25 | the raw scan sees a parameter in print exactly if no literal brace stands beside it |
| MqttAddresses.OnlyParamsMatch | faststream/mqtt/path.py:21 | and sees nothing but printed parameters |
| MqttAddresses.AcceptedIff | faststream/mqtt/path.py:21-32 | for every template: accepted exactly if each visible parameter fills its level |
| MqttAddresses.WholeIff | faststream/mqtt/path.py:21-32 | of an accepted topic every parameter fills its level exactly if none is hidden |
| MqttCaptures.SubjectCaptures | faststream/mqtt/path.py:4-10 | every subject of a topic, with any levels for its `+` and any tail for its last `/#`, is matched by the patched pattern from its start and gives the values of the parameters |
| MqttCaptures.AcceptedCaptures | faststream/mqtt/path.py:4-34 | what the guard accepts compiles, its broker address has a `+` for each parameter, and every subject, its own wildcards included, gives back the values |
| MqttCaptures.PatchedSound | faststream/mqtt/path.py:4-10 | whatever an MQTT address captures, from whatever subject, was there: a level for each parameter and each `+`, nothing or further levels for `/#` |
| MqttCaptures.CaptureFrom | faststream/mqtt/path.py:13-34 | the same along the objects: built, compiled on demand, matched |
| MqttAddresses.GuardMisses | faststream/mqtt/path.py:21-32 | a literal brace in front hides a parameter from the guard, though it shares its level |
| MqttAddresses.PrefixedWholeIff | faststream/mqtt/subscriber/usecase.py:78-83 | the guard is not asked again for a prefixed address: its parameters still fill their levels exactly if the prefix ends a level or the topic does not start with a parameter |
| MqttAddresses.PrefixSharesLevel | faststream/mqtt/subscriber/usecase.py:78-83 | the failing input: an accepted one-parameter topic under a prefix without a separator subscribes to a wildcard that shares its level |
| KafkaKeys.ExtractPerMessageKeysAndBodies | faststream/_internal/kafka/keys.py:34-71 | all keys and all unwrapped bodies if any key is set, otherwise neither |
| KafkaKeys.MatchingIff | faststream/_internal/kafka/keys.py:94-109 | a stable matching of equal bodies exists exactly for sub-multisets |
| KafkaKeys.MatchingUnique | faststream/_internal/kafka/keys.py:94-109 | there is only one, and it uses no member of the current batch twice |
| KafkaKeys.RealignKeys | faststream/_internal/kafka/keys.py:94-109 | the loop succeeds exactly when every member finds an unclaimed equal one, then gives the keys in insertion order; otherwise it raises at the first member that does not, with the error of that case |
| KafkaKeys.SkipSeen | faststream/_internal/kafka/keys.py:106-107 | the first unclaimed equal member from an index on, or the end of the batch |
| KafkaKeys.AcceptedIff | faststream/_internal/kafka/keys.py:94-109 | with at most one None the new batch is accepted exactly if it is a sub-multiset, one key for each body |
| KafkaKeys.KeysFollowIff | faststream/_internal/kafka/keys.py:103-104 | every key follows its body exactly if None does not repeat in the new batch |
| KafkaKeys.RealignedAt | faststream/_internal/kafka/keys.py:94-109 | the k-th occurrence of a body gets the key of its k-th occurrence before |
| KafkaKeys.RealignComposes | faststream/_internal/kafka/keys.py:94-109 | two rewrites in a row equal the direct one |
| KafkaKeys.RealignIdentityIff | faststream/_internal/kafka/keys.py:94-109 | rewriting to the same batch keeps the keys exactly if None does not repeat |
| KafkaKeys.KeysFollowBodies | faststream/kafka/response.py:134-166 | through any run of the setter, emptying and refused calls included, message i of the command has the key, or the default, first attached to that occurrence of its body, if the members that get keys are each time the messages |
| KafkaKeys.KeysFromTheStart | faststream/kafka/response.py:134-166 | from the messages a command was made of to what is read after any such run: message i has the key its occurrence of the body came with, or the default if it came with none |
| KafkaKeys.DefaultOutside | faststream/_internal/kafka/keys.py:71-91 | an index outside the batch reads the default |
| KafkaKeys.BatchReadsBack | faststream/response/response.py:109-120 | what was set is what is read back, but for a `None` in front |
| KafkaKeys.PlainRunsAreTidy | faststream/kafka/response.py:148-156 | that is so through any run that sets no batch with a None in front or a second None |
| KafkaKeys.StepFollowsIff | faststream/_internal/kafka/keys.py:100-109 | for exactly which accepted batches one call of the setter keeps every key with its body, whatever the keys are |
| KafkaKeys.TidyIff | faststream/response/response.py:109-120 | among batches with at most one None, exactly those without one in front |
| KafkaKeys.TidyClosed | faststream/kafka/response.py:148-156 | for all batches, as a caller can tell before the call: no None in front and at most one, or exactly two and both in front |
| KafkaKeys.AlignedIff | faststream/response/response.py:109-120 | after such a rewrite there are as many keys as messages exactly if there is no None in front, since the getter drops it |
| KafkaKeys.FrontNoneSlips | faststream/kafka/response.py:148-166 | the failing input: a None moved to the front gives the message behind it the wrong key, and a further rewrite keeps it |
| KafkaKeys.SeenMatches | faststream/_internal/kafka/keys.py:100-109 | for every accepted batch, repeated None included, the positions seen are the stable matching of its members without the repeats |
| KafkaKeys.UnkeyedStaysUnkeyed | faststream/kafka/response.py:158-163 | without per-message keys every message keeps the default, whatever is set |
| KafkaKeys.RunIsOneRewrite | faststream/kafka/response.py:148-166 | such a run of the setter leaves the keys that one call with the remaining messages would, exactly unless they repeat None from the start |
| KafkaKeys.KafkaPublishCommand.constructor | faststream/kafka/response.py:71-109 | for every index the key that message came with, or the default; the unwrapped bodies; keys match messages exactly unless a keyed batch starts with `None` |
| KafkaKeys.KafkaPublishCommand.SetBatchBodies | faststream/kafka/response.py:148-166 | the whole new command, realigned against what the getter gives; a refused batch changes nothing and names its first unmatched member; an emptied batch keeps its old keys |
| KafkaKeys.LeadingTombstoneSlips | faststream/kafka/response.py:105-109 | a keyed None in front loses its body but not its key, so the next message gets it |
| KafkaKeys.EmptiedBatchRejects | faststream/confluent/response.py:149-166 | once emptied, a batch with keys accepts no non-empty batch |
| Nuid.SuffixDecodes | faststream/_internal/utils/nuid.py:59-64 | the ten digits decode in base 62 to the number modulo 62^10 |
| Nuid.LexOrder | faststream/_internal/utils/nuid.py:20-28 | on digit strings of one width numeric order is byte order |
| Nuid.NextIdIsGreater | faststream/_internal/utils/nuid.py:52-67 | a larger sequence number below 62^10 gives a larger id under the same prefix |
| Nuid.EpochExtends | faststream/_internal/utils/nuid.py:52-67 | the next id of an epoch keeps all its ids strictly increasing, also when the first came from the bound 62^10 itself |
| Nuid.IncreasingDistinct | faststream/_internal/utils/nuid.py:52-67 | so the ids between two prefix changes are pairwise distinct |
| Nuid.NUID.constructor | faststream/_internal/utils/nuid.py:45-50 | any draws within the bounds start a valid generator |
| Nuid.NUID.RandomizePrefix | faststream/_internal/utils/nuid.py:69-71 | a new buffer of twelve digits; the numbers stay |
| Nuid.NUID.ResetSequential | faststream/_internal/utils/nuid.py:73-75 | number and increment are the draws within their inclusive bounds |
| Nuid.NUID.Next | faststream/_internal/utils/nuid.py:52-67 | 22 digits in a new buffer, the stored prefix unaltered, the number advanced or the epoch renewed; all ids since the last prefix stay strictly increasing |
| Nuid.NUID.WriteSuffix | faststream/_internal/utils/nuid.py:59-64 | the backwards loop writes the ten low-order digits |
| Contexts.ContextRepo.SetVar | faststream/_internal/context/repository.py:55-69 | a variable is made when missing, and the token remembers what it held |
| Contexts.ContextRepo.ResetVar | faststream/_internal/context/repository.py:71-81 | the old value comes back; an unknown key or another variable's token fails and changes nothing |
| Contexts.ContextRepo.Clear | faststream/_internal/context/repository.py:165-167 | only the entry for itself is left |
| Contexts.ContextScope.EnterBlock | faststream/_internal/context/repository.py:190-194 | sets the items in order, and holds their tokens |
| Contexts.ContextScope.ExitBlock | faststream/_internal/context/repository.py:196-205 | resets the tokens, the last one first |
| Contexts.EnterSets | faststream/_internal/context/repository.py:190-194 | inside the block a key has the last value given for it |
| Contexts.BlockRestores | faststream/_internal/context/repository.py:170-205 | after a block that does not fail, the keys of its items read as before it and every other key as the body left it |
| Contexts.RunFailsIff | faststream/_internal/context/repository.py:165-205 | a program of nested blocks, with `clear` among its statements, fails exactly if `clear` is called inside a block with items; otherwise variables are only added or cleared |
| Contexts.ScopedProgramRestores | faststream/_internal/context/repository.py:101-116 | a program that sets scoped values through blocks only leaves every scoped lookup as it was, repeated keys included |
| Contexts.ComposedProgramRestores | faststream/_internal/context/composition.py:41-66 | on a composition too, though only its inner repository is written |
| ContextGlobals.GlobalHidesScoped | faststream/_internal/context/repository.py:118-130 | whatever a program does to scoped values, a global value it leaves alone is read before them, alone and through any composition it is the inner repository of; without one, and once it is reset, the scoped value is read |
| ContextGlobals.GlobalHidesBlock | faststream/_internal/context/repository.py:118-130 | a global value set before a scope block hides the block's own value until it is reset |
| ContextGlobals.ClearForgets | faststream/_internal/context/repository.py:165-167 | after `clear` nothing is known but the repository itself |
| Contexts.LooksUpFlat | faststream/_internal/context/composition.py:49-66 | however compositions are nested, they look up as the flat list of their repositories, the first hit winning |
| Contexts.ResolveFollowsLookup | faststream/_internal/context/composition.py:76-87 | the first name of a dotted argument alone decides which context resolves it, unless following the rest from there ends in another ContextError |
| Contexts.ResolvesFlat | faststream/_internal/context/composition.py:76-87 | however compositions are nested, a dotted name is resolved by the first repository in flat order that raises no ContextError |
| Contexts.ContextRepoComposition.constructor | faststream/_internal/context/composition.py:16-23 | a new inner repository that knows the composition by the name `context`, in front of any repositories and compositions |
| Contexts.ContextRepoComposition.SetGlobal | faststream/_internal/context/composition.py:33-35 | sets in the inner repository; the ones behind are untouched |
| Contexts.ContextRepoComposition.ResetGlobal | faststream/_internal/context/composition.py:37-39 | resets in the inner repository; the ones behind are untouched |
| Contexts.ContextRepoComposition.Clear | faststream/_internal/context/composition.py:88-91 | clears the inner repository only, and names the composition in it again |
| Contexts.ContextRepoComposition.SetVar | faststream/_internal/context/composition.py:41-43 | writes the inner repository; the ones behind are untouched |
| Contexts.ContextRepoComposition.ResetVar | faststream/_internal/context/composition.py:45-47 | resets in the inner repository; the ones behind are untouched |
| Contexts.ContextRepoComposition.Get | faststream/_internal/context/composition.py:60-66 | the loop, recursive through nested compositions, finds the first hit; what a repository answers for a key that is both global and scoped is `ContextGlobals.GlobalHidesScoped` |
| Contexts.ContextRepoComposition.GetLocal | faststream/_internal/context/composition.py:49-55 | the same for scoped values |
| Contexts.MergedLookup | faststream/_internal/di/config.py:51-61 | a merge asks the right operand first, then the left |
| Contexts.OrAssociative | faststream/_internal/di/config.py:51-61 | both groupings of three merged configs are seen alike in all flags, provider, serializer, decorators and lookups; only the global entry `context` tells them apart, exactly if their outer compositions differ |
| ContextMerges.MergesOperands | faststream/_internal/di/config.py:51-61 | a merge of any configs, grouped in any way, against the plain list: fast-depends on if on in all, the last provider, the first serializer in use or else the last one, decorators from last to first, the first `get_dependent` set, and lookups in the repositories of the last config first |
| Processing.ProcessMsg | faststream/_internal/endpoint/utils.py:21-48 | None in, None out; otherwise every entered middleware is left exactly once in reverse order and shown what the ones inside it left. Inside, the first middleware that refuses decides, then the parser, then the consume scopes on the parsed message, the last one outermost, each given what the others yield; with scopes that mark and nothing suppressed the message comes out marked from the last middleware to the first |
| Processing.ProcessMessage | faststream/_internal/endpoint/subscriber/usecase.py:354-440 | the same bracket around the handlers; the first one that does not decline answers through the consume scopes, the first one outermost, and its answer goes to its publishers, of which the first that fails decides; an error that is suppressed ends in an empty response |
| Processing.RunHandlers | faststream/_internal/endpoint/subscriber/usecase.py:388-437 | the handlers are asked in order, with the first middleware's scope outermost |
| Processing.EnterAll | faststream/_internal/endpoint/utils.py:37-40 | enters the longest prefix that can be entered, and nests its scopes with the last one outermost |
| Processing.LeaveAll | faststream/_internal/endpoint/utils.py:32 | the exit stack: reverse order, each callback shown what is left so far |
| Processing.Wrapped | faststream/_internal/broker/pub_base.py:48-49 | folding over the reversed list makes the first middleware outermost |
| Processing.BasicPublish | faststream/_internal/broker/pub_base.py:39-51 | a command goes through the publish scopes in list order |
| Processing.BasicRequest | faststream/_internal/broker/pub_base.py:85-106 | publish first; its answer runs through the same bracket and consume scopes as a RESPONSE, no answer is passed on as none |
| Processing.Balanced | faststream/_internal/endpoint/utils.py:32-48 | in every trace each entry has its one exit and each exit its one entry, at mirrored places |
| Processing.ShownInTurn | faststream/_internal/endpoint/utils.py:33-48 | the exits are a chain: the innermost middleware is shown how the work ended, every other one what the one left before it has made of that, and what the outermost leaves is left |
| Processing.LeftIff | faststream/_internal/endpoint/utils.py:32-48 | an exception comes out exactly if everything outside the place it was raised at passed it on |
| Processing.QuietOutside | faststream/_internal/endpoint/utils.py:32-48 | once suppressed, an exception is seen by no middleware further out |
| Processing.BracketTable | faststream/_internal/endpoint/utils.py:32-48 | with middlewares that raise nothing while being left: the work's result, its error, or, if an entered middleware suppressed that, an AssertionError |
| Processing.ReturnsOnlyTheWork | faststream/_internal/endpoint/utils.py:45-48 | whatever the middlewares do, a returned value is what the scopes returned, never a None in place of an error |
| Processing.ConsumeOrder | faststream/_internal/endpoint/subscriber/call_item.py:137-147 | nested consume scopes see a message in the order they are nested |
| Processing.NestPasses | faststream/_internal/endpoint/utils.py:38-45 | for arbitrary scopes: the outermost is applied to a continuation that answers every message as the others do |
| Processing.PublishOrder | faststream/_internal/broker/pub_base.py:48-51 | nested publish scopes see a command in the order they are nested |
| Processing.NestSends | faststream/_internal/broker/pub_base.py:94-97 | the same for arbitrary publish scopes, on which `BasicPublish` and `BasicRequest` rely |
| Processing.OppositeOrders | faststream/_internal/endpoint/utils.py:38-40 | `process_msg` nests consume scopes in the order opposite to the one a subscriber uses for the same middlewares |
| Processing.FirstSuitable | faststream/_internal/endpoint/subscriber/usecase.py:388-437 | the first handler whose filter does not decline decides alone; with none, SubscriberNotFound |
| Acknowledgements.StreamMessage.Ack | faststream/message/message.py:117-119 | the status is written once; a broker that raises leaves the message as it was |
| Acknowledgements.StreamMessage.Nack | faststream/confluent/message.py:71-88 | the same for nack: a seek with Kafka, skipped when the place is unknown; nothing at all with MQTT |
| Acknowledgements.StreamMessage.Reject | faststream/kafka/message.py:75-76 | reject acknowledges with Kafka, Confluent and MQTT, and is a status of its own otherwise |
| Acknowledgements.FirstDecides | faststream/kafka/message.py:65-93 | in any run of attempts the first that takes effect decides both the status and the one broker call; ineffective ones before it, such as any number of MQTT nacks, leave no trace |
| Acknowledgements.SettledOnce | faststream/mqtt/message.py:9-18 | over any run: at most one status, at most one accepted commit, seek or raw ack, and never a call without a status |
| Acknowledgements.ToldFitsStatus | faststream/confluent/message.py:47-88 | over any run, what the broker accepted fits the status: commit exactly for an acknowledged manual Kafka message, seek for a negative one, raw ack for an acknowledged MQTT message of a higher quality of service |
| AckMiddleware.AcknowledgementMiddleware.ConsumeScope | faststream/middlewares/acknowledgement/middleware.py:71-80 | remembers the message, and acknowledges it first under ACK_FIRST |
| AckMiddleware.AcknowledgementMiddleware.Exit | faststream/middlewares/acknowledgement/middleware.py:82-120 | settles the message as policy and exception ask, and suppresses exactly handler requests, except under ACK_FIRST |
| AckMiddleware.OutcomeUnderPolicy | faststream/_internal/endpoint/subscriber/usecase.py:442-462 | standing first in the stack, it turns handler requests into an empty response and lets everything else it is shown come out |
| AckMiddleware.HandlerWins | faststream/middlewares/acknowledgement/middleware.py:71-120 | what a handler settled first stays, whatever the policy would do later; also under ACK_FIRST if the first acknowledgement failed |
| AckMiddleware.PolicySettles | faststream/middlewares/acknowledgement/middleware.py:71-120 | a message its handler left alone ends with the status of policy and exception, or none |
| AckMiddleware.StatusTable | faststream/middlewares/acknowledgement/middleware.py:82-120 | for every broker: which policies and errors end an open message in which status, with accepted and failing calls |
| AckMiddleware.UnsettledIff | faststream/middlewares/acknowledgement/middleware.py:71-120 | under every policy: a message is left unsettled exactly if it was open, no first attempt and none of the handler's took effect, and the way out asked for nothing (ACK_FIRST, skip, other handler request, cancellation) or failed |
| AckMiddleware.SwallowedIsAcked | faststream/middlewares/acknowledgement/middleware.py:90-91 | an error swallowed by an inner middleware counts as success: the message is acknowledged |
| Metrics.PrometheusMiddleware.Before | faststream/prometheus/middleware.py:119-145 | received counter and gauge both rise by the message count; nothing without a provider or for a response |
| Metrics.PrometheusMiddleware.After | faststream/prometheus/middleware.py:147-198 | the gauge falls, one status counter rises, and one exception counter for an exception that is not to be ignored, on success, exception and cancellation alike |
| Metrics.Conserved | faststream/prometheus/middleware.py:114-198 | under any interleaving, for each handler: gauge = messages in flight = received less processed under all statuses, and each status and exception counter is its tally of the messages that ended |
| Metrics.IdleAgain | faststream/prometheus/middleware.py:166-196 | once nothing of a handler is in flight its gauge is zero and all it received is processed |
| Metrics.StatusIff | faststream/prometheus/middleware.py:180-188 | exactly when a message counts as acked, nacked, rejected, skipped and as error; an unsettled cancelled one counts as acked |
| Metrics.ReportsOrdinary | faststream/prometheus/middleware.py:153-163 | the exception counter rises exactly for exceptions that are neither the framework's own nor a cancellation |
| Metrics.PredictsRequestIff | faststream/prometheus/consts.py:5-17 | for every broker: the status written for a handler's request agrees with how the message ends up exactly if it is settled by then, or if the request is no subclass instance, the broker has that operation, and it is carried out on the way out |
| Metrics.SettledFromTheStart | faststream/kafka/message.py:59-62 | a message the client commits by itself counts as acked whatever its handler does or raises |
| SpanLinks.GetMsgLinks | faststream/opentelemetry/middleware.py:385-410 | the loop gives one link for each linked id: its last span, and the messages of the id up to that one |
| SpanLinks.LinkedInOrder | faststream/opentelemetry/middleware.py:391-410 | links come in the order in which their ids first carry a span |
| SpanLinks.KeptIff | faststream/opentelemetry/middleware.py:394-408 | a message is counted exactly if it, or a later one of its id, carries a span |
| SpanLinks.LinkShows | faststream/opentelemetry/middleware.py:385-429 | a link shows the last span of its id, and a count exactly if that was not the id's only message so far |
| SpanLinks.WeightsAndLost | faststream/opentelemetry/middleware.py:385-429 | the counts (1 if unset) and the messages that are not counted make up the batch, always |
| SpanLinks.WeightsSumIff | faststream/opentelemetry/middleware.py:385-429 | the counts sum to the batch exactly if every message is counted |
| SpanLinks.CompleteBatch | faststream/opentelemetry/middleware.py:385-429 | in particular when every message has an id and a span |

## Left out

- Publishers of a registrator: they are flattened just as subscribers are.
- Weak references: a subscriber that is garbage collected leaves the lists; here all are kept.
- `add_middleware` and `insert_middleware` on a composition: they write into the root's config, and configs are values here.
- Options that are objects (callables, dependencies, loggers) are names; a falsy parser, decoder or codec object is not told apart from a set one.
- Keyword arguments that brokers' own `include_router` overrides add are not modelled.
- `_is_handler_matches` and the rest of the in-memory test brokers: only `apply_pattern` is modelled.
- Sentinels: the texts that stand for literal braces are symbols of their own, so a declaration that contains `faststream_escaped` itself is excluded.
- AddressTemplates.CompilePath: `patch_regex` is a function on pattern items, applied where the code applies it.
- AddressCaptures.CompiledCaptures: for brokers other than MQTT, literals without the broker's wildcard characters; how wildcards and parameters share a subject is said item by item (`MatchReads`), not for whole templates.
- Python's `re` is an ordered matcher over skip, literal, capture, the brokers' wildcards and end; repeated group names and names that start with a digit are refused as it refuses them. Letters and digits are those of ASCII.
- Literal addresses (`Address.literal`): no parsing happens there.
- Equality of bodies is equality of values; Python's equality across types, such as `1 == True`, is not modelled.
- Partitions, timestamps, headers and timeouts of publish commands; `_parse_bodies`, which only splits a list.
- Nuid.NUID.Next: random draws are parameters within the bounds of the code; that prefixes differ between epochs is not claimed.
- `ContextVar` across coroutines: the model is a single one, where a token restores the value before it; that a token is used once is not checked.
- Contexts.ResolveFollowsLookup: says nothing where following the rest of the name ends in a ContextError again; `ResolvesFlat` does.
- Attribute access on contexts and the merged `context` dictionary.
- Processing.ProcessMsg: each middleware's reaction on leaving is a function of the exception it is shown, and its scopes are functions that may call what is inside any number of times; effects of scopes on each other beyond message and result are not modelled.
- Locks, logging and the context scopes around `process_message`; publishers there are functions of the reply, their own scopes being those of `BasicPublish`.
- Acknowledgements.StreamMessage.Ack: the four message classes are one class with a kind, since their methods override each other; extra options of ack, nack and reject are dropped.
- Concurrent ack calls on one message: two that overlap while the broker answers are not modelled.
- Metrics.PrometheusMiddleware.After: message sizes and durations are not observed; broker name and custom labels are part of the handler.
- Publish metrics, spans themselves and the OpenTelemetry meters.
- Network clients, connection lifecycles, serialization, AsyncAPI and the command line.
