# simpler_command, modelled in Dafny

simpler_command is a Ruby library for command (service) objects. A class
prepends `SimplerCommand` and defines `#call`. The library's `call` then
runs that logic at most once. The logic reports problems through an
`errors` collection. The command then answers `success?` / `failure?`, and
its `result` raises `SimplerCommand::Failure` when errors were recorded.

This project models three files:

- `errors.dfy` (module `ErrorCollection`) models `SimplerCommand::Errors`.
  It is an insertion-ordered hash from a key to the distinct messages
  recorded for it.
  - The pure value `Table` (key order plus message lists) gives the meaning
    of each operation: `Added` for `add`, `Replay` for `add_all`, `PairsOf`
    for `each`, `Render` for `full_messages` and `Grouped` for `as_json`.
  - The class `Errors` holds the same two fields and updates them in place.
    Its methods are proved against those functions.
- `simpler_command.dfy` (module `SimplerCommand`) models the call
  lifecycle.
  - The class `Command` has the `@called` and `@result` fields and owns an
    `Errors` object.
  - A ghost counter `runs` counts how often the user's logic has run.
  - The user's `#call` is a total function of the constructor arguments.
    It returns a `Step`: the value, the `errors.add` calls the logic makes
    (in order), and whether it calls `call` on its own command once more.
  - `None` stands for a class that defines no `#call`.
  - Raised exceptions are the datatype `Outcome`.
  - A block is modelled as a flag, and the value yielded to it is an
    out-parameter.
- `string_utils.dfy` (module `StringUtils`) models the fallback branches of
  `humanize` and `to_sentence` (the branches taken without ActiveSupport),
  on ASCII strings.
- `wrappers.dfy` holds `Option`, which stands for Ruby's `nil` versus a
  present value.

Three behaviours of the code are easy to misread, and the model follows
the code in each:

- `call` yields `result` to its block on EVERY call, not only on the first.
- `@called` is set BEFORE the logic runs. A nested `call` from inside the
  logic therefore does not run it again.
- `humanize` uses `capitalize`, which also downcases every character after
  the first.

A failure sentence is joined with ", " (the fallback of `to_sentence`).
"All is Broken and Foo is not welcome" is what ActiveSupport's
`to_sentence` produces. The model gives "All is Broken, Foo is not welcome"
(`SimplerCommand.FailingTwiceExample`).

## Model

| member | source | states |
|---|---|---|
| `ErrorCollection.Uniq` | lib/simpler_command/errors.rb:9 | `uniq!` leaves no duplicates and keeps exactly the elements of its input |
| `ErrorCollection.UniqOrder` | lib/simpler_command/errors.rb:9 | `uniq!` orders the kept elements by where each first occurs in its input; with the two clauses of `Uniq` this fixes the result |
| `ErrorCollection.UniqAppendUniq` | lib/simpler_command/errors.rb:8-9 | running `uniq!` after every `<<` gives the same list as one `uniq!` of the old list and all the appended messages |
| `ErrorCollection.UniqOfDistinct` | lib/simpler_command/errors.rb:9 | `uniq!` of a list without duplicates is that list |
| `ErrorCollection.Added` | lib/simpler_command/errors.rb:6-10 | defines `add(key, m)` on the collection as a value: `self[key] ||= []` (a new key goes last in the key order), then `<< m`, then `uniq!` |
| `ErrorCollection.AddedList` | lib/simpler_command/errors.rb:6-10 | the list `add(key, m)` leaves for `key`: `[m]` for a new key, the old list when `m` is already in it, the old list and `m` otherwise; it is duplicate-free and holds `m` |
| `ErrorCollection.AddedSpec` | lib/simpler_command/errors.rb:6-10 | after `add(key, m)` the key is present and holds `m` exactly once. A new message is appended, a known one leaves the list as it was, and a new key gets `[m]` and goes to the end of the key order. Every other key keeps its list |
| `ErrorCollection.AddedNewKey` | lib/simpler_command/errors.rb:6-10 | `add` on an absent key appends the key and stores `[m]` |
| `ErrorCollection.AddedWellFormed` | lib/simpler_command/errors.rb:6-10 | `add` keeps keys distinct, keys and lists in step, and every list non-empty and duplicate-free |
| `ErrorCollection.AddedExtends` | lib/simpler_command/errors.rb:6-10 | `add` only extends: the old key order and each old list are prefixes of the new ones |
| `ErrorCollection.AddedIdempotent` | lib/simpler_command/errors.rb:6-10 | adding the same message to the same key twice is the same as adding it once |
| `ErrorCollection.Replay` | lib/simpler_command/errors.rb:12-18 | defines a run of `add` calls: the pairs are added one after another, in order |
| `ErrorCollection.ArrayOf` | lib/simpler_command/errors.rb:14 | defines `Array(values)`: one message becomes a one-element list, a list stays as it is, `nil` becomes the empty list |
| `ErrorCollection.Expand` | lib/simpler_command/errors.rb:13-16 | defines the `add` calls `add_all` makes: for each entry in order, one `(key, m)` per message of `Array(values)` |
| `ErrorCollection.Tagged` | lib/simpler_command/errors.rb:14-16 | the `add` calls for one entry pair its key with each of its messages, in order |
| `ErrorCollection.AsSource` | lib/simpler_command/errors.rb:13 | another `Errors` given to `add_all` is seen through its `each` as one message per entry |
| `ErrorCollection.ExpandAsSource` | lib/simpler_command/errors.rb:12-18 | `add_all` of an `Errors` source makes exactly the `add` calls of its pairs, in order |
| `ErrorCollection.ReplayAppend` | lib/simpler_command/errors.rb:12-18 | `add_all` of two lists in a row is `add_all` of their concatenation |
| `ErrorCollection.ReplaySnoc` | lib/simpler_command/errors.rb:12-18 | one more pair replayed is one more `add` |
| `ErrorCollection.ReplayWellFormed` | lib/simpler_command/errors.rb:12-18 | `add_all` keeps the collection well formed |
| `ErrorCollection.ReplayExtends` | lib/simpler_command/errors.rb:12-18 | `add_all` only extends keys and lists, and every replayed message is present afterwards |
| `ErrorCollection.ReplayOfPresent` | lib/simpler_command/errors.rb:12-18 | replaying messages that are all present changes nothing |
| `ErrorCollection.ReplayIdempotent` | lib/simpler_command/errors.rb:12-18 | `add_all` of the same source twice is `add_all` of it once |
| `ErrorCollection.ReplayEmptyIff` | lib/simpler_command/errors.rb:12-18 | after `add_all` the collection is empty iff it was empty and nothing was added |
| `ErrorCollection.ReplayKeysGrow` | lib/simpler_command/errors.rb:12-18 | `add_all` never removes or reorders keys |
| `ErrorCollection.ReplayTagged` | lib/simpler_command/errors.rb:6-16 | adding the messages `ms` to one key, repeats included, leaves that key with `uniq` of its old list followed by `ms`; a new key goes last in the key order and every other key keeps its list; no messages change nothing |
| `ErrorCollection.ReplayPresentKey` | lib/simpler_command/errors.rb:14-16 | new distinct messages for a present key are appended to its list in order |
| `ErrorCollection.ReplayNewKey` | lib/simpler_command/errors.rb:14-16 | distinct messages for a new key become its list, and the key goes last |
| `ErrorCollection.PairsFrom` | lib/simpler_command/errors.rb:20-24 | defines `each` over a given key order: for each key in turn, one pair per message of its list |
| `ErrorCollection.PairsOf` | lib/simpler_command/errors.rb:20-24 | defines `each` of a collection: `PairsFrom` over its own insertion order of keys |
| `ErrorCollection.Position` | lib/simpler_command/errors.rb:21 | the position of a present key in `each_key` order |
| `ErrorCollection.MessagesForAppend` | lib/simpler_command/errors.rb:20-24 | the messages of one key in a concatenation of pair lists are those of each part, in order |
| `ErrorCollection.PairsFromMembers` | lib/simpler_command/errors.rb:20-24 | every pair `each` yields is a present key with one of its messages |
| `ErrorCollection.PairsFromMessages` | lib/simpler_command/errors.rb:20-24 | the messages `each` yields for a key are exactly its list, in order |
| `ErrorCollection.PairsFromOrdered` | lib/simpler_command/errors.rb:20-24 | `each` yields keys grouped in insertion order |
| `ErrorCollection.PairsOfSpec` | lib/simpler_command/errors.rb:20-24 | `each` yields member pairs, each key's full list in order, keys in order, and nothing iff the collection is empty |
| `ErrorCollection.PairsEmptyIff` | lib/simpler_command/errors.rb:20-24 | `each` yields nothing iff there is no key |
| `ErrorCollection.ReplayFromPrefix` | lib/simpler_command/errors.rb:12-24 | replaying the pairs of the keys from position n on, into the first n keys, gives the whole collection |
| `ErrorCollection.ReplayPairsIntoEmpty` | lib/simpler_command/errors.rb:12-24 | `add_all` of a collection into an empty one copies it exactly |
| `ErrorCollection.FullMessage` | lib/simpler_command/errors.rb:42-47 | a `:base` message is returned as it is; any other message is preceded by as many characters as the key name has, plus one |
| `ErrorCollection.FullMessageShape` | lib/simpler_command/errors.rb:42-47 | a message on a key other than `:base` is the humanized key name, one space and the message, and the prefix has no `_` or `.` |
| `ErrorCollection.Render` | lib/simpler_command/errors.rb:26-28 | `full_messages` has one full message per pair, in the same order |
| `ErrorCollection.FullMessagesOf` | lib/simpler_command/errors.rb:26-28 | defines `full_messages` of a collection: `Render` of its `each` pairs |
| `ErrorCollection.Grouping` | lib/simpler_command/errors.rb:34-35 | defines one step of `as_json`: `output[field] ||= []` (a new field goes last), then `output[field] << value` |
| `ErrorCollection.Grouped` | lib/simpler_command/errors.rb:32-36 | defines the hash `as_json` builds: one `Grouping` step per pair, in order |
| `ErrorCollection.GroupedAppend` | lib/simpler_command/errors.rb:32-36 | grouping two lists of pairs in a row is grouping their concatenation |
| `ErrorCollection.GroupedPresentKey` | lib/simpler_command/errors.rb:34-35 | grouping messages of a present key appends them to its list |
| `ErrorCollection.GroupedNewKey` | lib/simpler_command/errors.rb:34-35 | grouping messages of a new key creates its list and puts the key last |
| `ErrorCollection.GroupedFromPrefix` | lib/simpler_command/errors.rb:31-38 | grouping the pairs of the keys from position n on into the first n keys gives the whole collection |
| `ErrorCollection.GroupedPairs` | lib/simpler_command/errors.rb:31-38 | grouping `each` back by key gives the collection itself |
| `ErrorCollection.Errors.constructor` | lib/simpler_command.rb:67 | a new `Errors` is empty |
| `ErrorCollection.Errors.Add` | lib/simpler_command/errors.rb:6-10 | the in-place update gives exactly `Added` of the old state and keeps the collection well formed |
| `ErrorCollection.Errors.AddAll` | lib/simpler_command/errors.rb:12-18 | the two nested loops give exactly the replay of every `Array(values)` message, in order |
| `ErrorCollection.Errors.Each` | lib/simpler_command/errors.rb:20-24 | `each` yields member pairs, each key's whole list in order, keys in insertion order, and nothing iff empty |
| `ErrorCollection.Errors.FullMessages` | lib/simpler_command/errors.rb:26-28 | one full message per pair of `each`, in order |
| `ErrorCollection.Errors.AsJson` | lib/simpler_command/errors.rb:31-38 | the grouped hash equals the collection's own contents and order |
| `ErrorCollection.Errors.Any` | lib/simpler_command.rb:61 | `errors.any?` holds iff `each` yields some pair |
| `ErrorCollection.AddExamples` | spec/simpler_command/errors_spec.rb:9-21 | `add` wraps a message in a list and ignores a duplicate |
| `ErrorCollection.TwoKeysTable` | spec/simpler_command/errors_spec.rb:85-90 | adds on two keys give both keys in order, one message each |
| `ErrorCollection.InterleavedTable` | spec/simpler_command/errors_spec.rb:64-66 | adds on `foo`, `bar`, `foo` give `foo => [a, c], bar => [b]` |
| `ErrorCollection.EachExample` | spec/simpler_command/errors_spec.rb:60-75 | `each` after those adds yields `foo, foo, bar` |
| `StringUtils.Upcase` | lib/simpler_command/string_utils.rb:16 | defines `upcase` of one character: only the ASCII letters `a`-`z` change, to `A`-`Z` |
| `StringUtils.Downcase` | lib/simpler_command/string_utils.rb:16 | defines `downcase` of one character: only the ASCII letters `A`-`Z` change, to `a`-`z` |
| `StringUtils.Tr` | lib/simpler_command/string_utils.rb:12 | `tr` of one character replaces exactly its occurrences and keeps the length |
| `StringUtils.DowncaseAll` | lib/simpler_command/string_utils.rb:16 | `downcase` maps every character and keeps the length |
| `StringUtils.Capitalize` | lib/simpler_command/string_utils.rb:16 | `capitalize` upcases the first character and downcases the rest |
| `StringUtils.Humanize` | lib/simpler_command/string_utils.rb:11-18 | `humanize` keeps the length, turns `.` and `_` into spaces, capitalises, and leaves no `_` or `.` |
| `StringUtils.HumanizeIdempotent` | lib/simpler_command/string_utils.rb:11-18 | humanizing a humanized string changes nothing |
| `StringUtils.HumanizeExample` | spec/simpler_command/errors_spec.rb:105-109 | `foo_bar_baz` humanizes to `Foo bar baz` |
| `StringUtils.HumanizeFoo` | spec/simpler_command/errors_spec.rb:79-83 | `foo` humanizes to `Foo` |
| `StringUtils.ToSentence` | lib/simpler_command/string_utils.rb:21-27 | `join(", ")`: empty for no item, the item for one, and total length plus two per separator otherwise |
| `StringUtils.ToSentenceSnoc` | lib/simpler_command/string_utils.rb:25 | one more item appends ", " and the item |
| `StringUtils.ToSentenceEnds` | lib/simpler_command/string_utils.rb:25 | the sentence starts with the first item and ends with the last |
| `SimplerCommand.FailureMessage` | lib/simpler_command.rb:55 | defines the message of the raised `Failure`: `to_sentence` of the collection's `full_messages` |
| `SimplerCommand.Command.constructor` | lib/simpler_command.rb:24 | a new command has not been called, has a nil result and an empty fresh `errors` |
| `SimplerCommand.Command.Failure` | lib/simpler_command.rb:60-62 | `failure?` iff called and some error pair exists; never before `call` |
| `SimplerCommand.Command.Success` | lib/simpler_command.rb:49-52 | `success?` (alias `successful?`) iff called and no error; after `call` exactly one of `success?` and `failure?` holds, before it neither |
| `SimplerCommand.Command.Result` | lib/simpler_command.rb:54-58 | `result` raises `Failure` with the ", "-joined full messages iff `failure?`; otherwise `@result`, which is nil before `call` |
| `SimplerCommand.Command.Call` | lib/simpler_command.rb:36-47 | every call without logic raises `NotImplementedError` and changes nothing. The first call runs the logic once and records its errors and value. Later calls change nothing. Each call returns the command and yields `result`, or raises what `result` raises |
| `SimplerCommand.Command.Run` | lib/simpler_command.rb:39-42 | `@called` is set before the logic runs. A nested `call` finds it set. The value becomes `@result` and the logic's adds are replayed |
| `SimplerCommand.Record` | lib/simpler_command.rb:41 | the logic's `errors.add` calls replay its additions into the collection |
| `SimplerCommand.OneShot` | lib/simpler_command.rb:27-29 | defines the reference outcome of `call!` on a fresh command: `NotImplementedError` without logic; otherwise `Failure` with `FailureMessage` of the replayed additions when the replayed collection has a key, else the logic's value |
| `SimplerCommand.OneShotFailsIff` | lib/simpler_command.rb:54-62 | a fresh command's `call!` raises iff its logic adds an error; otherwise it returns the logic's value |
| `SimplerCommand.OneShotMessage` | lib/simpler_command.rb:55 | the failure message is the ", "-joined full messages of the added errors, in `each` order |
| `SimplerCommand.ClassCall` | lib/simpler_command.rb:23-25 | `Klass.call` builds a fresh command and calls it. Without a block it returns the command, with a block it yields the one-shot outcome or raises it. The returned command keeps its arguments and logic, its `@result` is the logic's value, its errors are the logic's additions replayed into an empty collection, and its `result` is the one-shot outcome |
| `SimplerCommand.ClassCallBang` | lib/simpler_command.rb:27-29 | `Klass.call!` gives the one-shot outcome: the value, `Failure` or `NotImplementedError` |
| `SimplerCommand.CallThrice` | spec/simpler_command_spec.rb:159-170 | calling three times runs the logic once, and `result` is that of the first call |
| `SimplerCommand.Sum` | spec/simpler_command_spec.rb:4-15 | defines the logic of `SuccessfulCommand`: the sum of its two arguments, adding no error |
| `SimplerCommand.Failing` | spec/simpler_command_spec.rb:29-35 | defines the logic of `FailingCommand`: one error "Failed as expected" on `:base` |
| `SimplerCommand.FailingTwice` | spec/simpler_command_spec.rb:92-99 | defines the logic of `FailingValidationCommand`: "All is Broken" on `:base`, then "is not welcome" on `:foo` |
| `SimplerCommand.SuccessfulExample` | spec/simpler_command_spec.rb:131-136 | `call!(2, 3)` of the adding command returns 5 |
| `SimplerCommand.OneBaseError` | lib/simpler_command/errors.rb:43 | a single `:base` error raises with its message unprefixed |
| `SimplerCommand.TwoErrorsPairs` | lib/simpler_command/errors.rb:20-24 | `each` of two one-message keys yields both pairs in order |
| `SimplerCommand.TwoErrors` | lib/simpler_command.rb:55 | a `:base` error and another key's error raise both full messages joined with ", " |
| `SimplerCommand.FailingCommandExample` | spec/simpler_command_spec.rb:68-80 | `FailingCommand.call` is a failure and not a success, its errors hold `["Failed as expected"]` under `:base`, and its `result` raises `Failure` with that message |
| `SimplerCommand.FailingExample` | spec/simpler_command_spec.rb:67-89 | the failing command raises `Failure` with "Failed as expected" |
| `SimplerCommand.FooMessage` | lib/simpler_command/errors.rb:42-47 | the full message for `:foo` and "is not welcome" is "Foo is not welcome" |
| `SimplerCommand.FailingTwiceExample` | spec/simpler_command_spec.rb:91-119 | the two-error command raises "All is Broken, Foo is not welcome" without ActiveSupport |
| `SimplerCommand.IncompleteExample` | spec/simpler_command_spec.rb:121-127 | a command without `#call` raises `NotImplementedError` |

## Left out

- Code generators, the Rails railtie and the test helper: they are scaffolding and integration glue, not the core.
- ActiveSupport branches of `humanize` and `to_sentence`, and the final `as_json(options)` conversion of the grouped hash: they call into a library that is not part of this model.
- An `errors` override (`return super if defined?(super)`, e.g. ActiveModel's errors): foreign code. Only the default branch is modelled, and its collection is created at construction instead of on first access; no operation can observe the difference.
- `prepend`, `defined?(super)` and `*args` splatting: Ruby metaprogramming. The logic is an explicit `Option` of a function, and the arguments are one value of a type parameter.
- Exceptions raised by the user's logic or by a block, and what the block does with the value: outside the library's code. The logic always returns.
- SimplerCommand.Command.Call: the logic's one nested `call` is modelled without a block. A nested call with a block, or one made between two `add` calls, is not modelled.
- The block passed on by the bare `super` (lib/simpler_command.rb:41): Ruby hands the block given to `call` to the user's `#call` as well. The logic here is a function of the arguments and never sees that block, so a logic that yields to it, and the block running a first time inside the logic, are not modelled.
- The methods that `Errors` inherits from `Hash` (lib/simpler_command/errors.rb:5), such as `[]=`, `delete`, `clear` or `<<` on a stored list: they can break the invariant that every key holds a non-empty, duplicate-free list. For example, `errors[:foo] = []` makes `any?`, and so `failure?`, true while `each` yields nothing, and then `result` raises `Failure` with an empty message. `ErrorCollection.Errors.Any` and the `Failure`/`Success` contracts rely on `add` and `add_all` being the only ways to change the collection.
- The logic sees only its arguments, not the command's state (for example `errors` or `result` read from inside `#call`).
- Thread safety: the `@called` flag is not atomic, and concurrency is not modelled.
- Unicode case mapping: `upcase` and `downcase` change only the ASCII letters.
- `add`'s ignored options argument and `add`'s return value (that of `uniq!`).
- Ruby key identity is modelled by `Key`, a symbol or a string with its name. Only the symbol `:base` is unprefixed, and `to_s` of a key is its name.
