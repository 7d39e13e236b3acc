# Consul resolver for gRPC — verified model

This project models the core of a gRPC name resolver that finds the instances
of a service through Consul. It covers two parts.

- **Target parsing** (`options.go`). A target `consul://host/service?scheme=…&tags=…&health=…&token=…`
  becomes a service name, a query scheme, a tag list, a health policy and an
  ACL token. The query keys are matched case-insensitively. `scheme` must be
  `http` or `https` and `health` must be `healthy` or `fallbacktounhealthy`.
  `tags` is split at commas and `token` is kept verbatim. Any other key is
  refused. When `health` is absent the policy is `OnlyHealthy`.
- **The watch loop and its data logic** (`resolver.go`). Each iteration sends one
  blocking health query with the current cursor (`WaitIndex`). Under
  `FallbackToUnhealthy` the entries are filtered on the client, keeping the
  passing ones when there are any. Each entry becomes `host:port`. The list is
  compared with the last one delivered and handed to gRPC only when it differs.
  A cancelled query ends the loop. Any other error is reported. A directory
  index that went backwards resets the cursor to 0.

Files (each one module, except `options.dfy`, which holds two):

- `base.dfy`: `Option`, and `Slice`, a Go slice whose nil value is distinct from an empty slice.
- `strings.dfy`: the parts of Go's `strings` and `fmt` that the core uses
  (ASCII lower-casing, `TrimPrefix`, `Split`/`Join`, decimal printing of a port).
- `net.dfy`: `net.JoinHostPort`, with a splitting function that undoes it.
- `options.dfy`: module `Options` (`extractOpts`, `parseEndpoint`, the
  `healthFilter` enum and its default `DefaultHealthFilter`) and module
  `OptionsFacts` (lemmas about them).
- `resolver.dfy`: module `Resolver` (`filterPreferOnlyHealthy`, the mapping and
  policy dispatch of `query`, `addressesEqual`, the watch-loop step `Step`, the
  run of the loop `Run`, the class `Watcher` holding the loop's state, and the loop `Watch`).

How the source's behaviour is stated:

- `extractOpts` walks a Go map, whose order is unspecified. `ExtractOpts`
  therefore picks each next key arbitrarily (`:|`). Its contract holds for
  every order. It fails exactly when some key with values is refused, and the
  error is one such key's error. On success each option is the decoded last
  value of a key that names it, or its zero value when no key does; the
  predicate `OptsFrom` states this.
- When two keys differ only in case, for example `scheme` and `SCHEME`, either
  value can win, depending on map order. `CaseVariantKeysAmbiguous` exhibits
  both outcomes. `OptsFromUnique` proves the result is unique when no such
  pair exists.
- In Go a failing call returns zero values beside its error. The methods
  return an explicit pair `(value, err)` with the zero record on error.
- The watch loop is the class `Watcher`. Its fields are the cursor and the
  last delivered list, and `Iterate` is one pass of the loop body. `Watch` runs
  the loop over a finite sequence of directory replies. `Step` and `Run` are
  the pure transition and its iteration, and the lemmas are stated about them.

Behaviours of the code that are easy to mistake, and that the model keeps:

- After any query error the cursor is reset to 0, not kept. `query` returns
  index 0 on an error, and the loop stores it in `WaitIndex` before it looks
  at the error.
- An absent `tags` key leaves the tag list nil, not an empty list.
- `addressesEqual` keeps a nil list apart from an empty one on every call, not
  only on the first comparison. Only the initial state holds a nil list, so
  the observable behaviour is the same.

## Model

| member | source | states |
|---|---|---|
| `Options.ExtractOpts` | options.go:42-77 | For every key order: fails iff some key with values is refused (unknown after lower-casing, bad scheme, bad health), with that key's error and zero options; otherwise each option comes from the last value of a key naming it, or is zero |
| `Options.ParseEndpoint` | options.go:20-40 | Service name is the path with one leading "/" removed; empty name fails with MissingServiceName; success iff name non-empty and query accepted; on error all results zero; on success health is never Undefined and a missing health gives OnlyHealthy |
| `Options.ReadKey` | options.go:49-73 | The error a key and its last value cause is exactly `CheckKey`'s: unknown key after lower-casing, a scheme other than http/https, a health value other than the two policies; on error the zero options, otherwise the one option the key names is set to the decoded value |
| `Options.VisitKey` | options.go:44-73 | One pass of the loop: a key without values is skipped; otherwise the verdict is `CheckKey` of its last value, with the zero options on error, and on success the options are those of the visited keys with this one added |
| `Options.DefaultHealth` | options.go:35-37 | Replacing an Undefined policy by the default is the same as reading a missing `health` key as OnlyHealthy, and leaves a given policy alone |
| `OptionsFacts.OptsFromUnique` | options.go:43-74 | When no two keys differ only in case, the options do not depend on the order in which keys are visited |
| `OptionsFacts.CaseVariantKeysAmbiguous` | options.go:43-51 | With keys `scheme` and `SCHEME` both `http` and `https` are outcomes the loop can produce |
| `OptionsFacts.LastValuesDecide` | options.go:43-47 | Only the last value of each key matters, and a key with no values is as good as absent: the verdict and the options are the same |
| `OptionsFacts.TagsOfEmpty` | options.go:56-57 | An empty `tags` value gives one empty tag, not an empty list |
| `OptionsFacts.TagsOfJoin` | options.go:56-57 | A `tags` value that joins comma-free tags with commas gives back exactly those tags |
| `OptionsFacts.JoinTagsOf` | options.go:56-57 | Joining the tags a value gives, with commas, restores the value |
| `OptionsFacts.HealthValues` | options.go:59-67 | `healthy` and `fallbacktounhealthy` in any case give OnlyHealthy and FallbackToUnhealthy; every other value is refused |
| `Strings.Lower` | options.go:49-60 | The result has the input's length, holds no ASCII capital, and at every position is the input's character or the other case of the same ASCII letter (see "## Left out" for other letters) |
| `Strings.LowerUnique` | options.go:49-60 | Those three properties determine the result: any text meeting them is `Lower` of the input |
| `Strings.TrimPrefix` | options.go:25 | The result is the input with the prefix removed once when it starts with it, and the input otherwise |
| `Strings.Split` | options.go:57 | The split has at least one piece and no piece contains the separator |
| `Strings.JoinSplit` | options.go:57 | Joining the pieces of a split restores the string |
| `Strings.SplitJoin` | options.go:57 | Splitting the join of separator-free pieces restores the pieces |
| `Strings.NatToDecimal` | resolver.go:135 | The printed number is a non-empty string of decimal digits with no leading zero, except "0" itself for 0 |
| `Strings.IntToDecimal` | resolver.go:135 | `fmt.Sprint` of a port is decimal digits without a leading zero (other than "0"), with a leading minus exactly for a negative number, and holds no colon; `IntToDecimalRoundTrip` proves it reads back, so the text is the canonical decimal |
| `Strings.IntToDecimalRoundTrip` | resolver.go:135 | The printed port reads back as the port |
| `Net.JoinHostPort` | resolver.go:135 | Splitting `JoinHostPort(host, port)` at its last colon gives back host and port, for a colon-free port and any host that is not bracketed without holding a colon; the length adds brackets exactly when the host holds a colon, so the text is `[host]:port` or `host:port` |
| `Resolver.FilterPreferOnlyHealthy` | resolver.go:145-159 | Returns the passing entries when there are any, otherwise the input |
| `Resolver.PassingFacts` | resolver.go:146-152 | The passing entries are a subsequence of the input, are all passing, and keep every passing entry as often as the input has it |
| `Resolver.PreferHealthyWhenSomePassing` | resolver.go:154-156 | With at least one passing entry the result is exactly the passing entries, in input order |
| `Resolver.PreferHealthyWhenNonePassing` | resolver.go:158 | With no passing entry the input is returned unchanged |
| `Resolver.PreferHealthyNeverAdds` | resolver.go:145-159 | The result is a subsequence of the input, no longer than it, and not empty when the input is not |
| `Resolver.EntryAddresses` | resolver.go:128-137 | The loop of `query` builds exactly the addresses of the entries, in entry order |
| `Resolver.AddressesOfAt` | resolver.go:128-137 | One address per entry, in order: the service address, or the node address when it is empty, joined with the decimal port |
| `Resolver.EntryAddressDecodes` | resolver.go:130-135 | An entry's address splits back into its host and a port text that reads back as its port |
| `Resolver.Query` | resolver.go:117-140 | Sends passing-only exactly under OnlyHealthy with the given cursor; on error a nil list and index 0; otherwise the addresses of the (under FallbackToUnhealthy, filtered) entries and the directory's index |
| `Resolver.QueryReplyShape` | resolver.go:118-139 | A failed query gives nil and 0; a successful one a non-nil list, possibly empty, one address per shown entry in order; the client filter runs only under FallbackToUnhealthy |
| `Resolver.AddressesEqual` | resolver.go:161-181 | True iff both are nil, or both non-nil with equal lengths and equal `Addr` at every index |
| `Resolver.AddrListsEqualIsEquality` | resolver.go:161-181 | The comparison is list equality with nil and empty kept apart, hence reflexive and symmetric |
| `Resolver.Step` | resolver.go:84-112 | One iteration: cancellation and only cancellation stops; other errors are reported and set the cursor to 0; an index below the cursor resets it to 0 without delivery; a delivery happens iff the new list differs from the last delivered one, which it then becomes; a successful query gives nothing or a delivery, never an error report |
| `Resolver.Run` | resolver.go:83-113 | The loop consumes every reply, or stops early exactly at an action Stop, which is then its last action |
| `Resolver.RunActions` | resolver.go:89-107 | Each action answers the reply at its position: only a cancellation stops, and then the loop ends; other errors are reported; errors never deliver |
| `Resolver.RunNeverRepeats` | resolver.go:105-112 | No two consecutive deliveries are equal, and the first differs from the list delivered before |
| `Resolver.FirstSuccessDelivered` | resolver.go:77-112 | From the start state, after non-cancelling errors only, the first successful query is delivered even with zero addresses |
| `Resolver.EmptyRepliesDeliverOnce` | resolver.go:101-112 | A service with no instances is delivered as the empty list exactly once |
| `Resolver.FallbackScenario` | resolver.go:124-137 | Under FallbackToUnhealthy, one passing and one critical entry deliver the passing one; once both are critical both are delivered |
| `Resolver.Watcher.constructor` | resolver.go:76-78 | A watch starts with cursor 0 and a nil last-delivered list |
| `Resolver.Watcher.Iterate` | resolver.go:84-112 | One pass of the loop body updates the cursor and the last delivered list as `Step` says and returns its request and action |
| `Resolver.Watch` | resolver.go:81-115 | Running the loop over the replies performs exactly `Run` from the start state, so no two consecutive deliveries are equal |

## Left out

- consul.go is not part of this model. It holds configuration loading, service registration and deregistration, the node cache and its refresh ticker.
- builder.go is not part of this model. `Build` only parses, constructs a Consul client and starts the resolver; the client is a foreign type.
- `consulResolver.Resolver` picks an address at random and indexes a possibly empty list; randomness is outside the model.
- `ResolveNow` starts a further watcher goroutine, and `Close` cancels the context. Concurrency is not modelled. A new watch is the `Watcher` constructor, and cancellation reaches the model only as a `Canceled` query reply.
- The 50 ms ticker and the 500 ms sleep after an error are timing and are left out.
- The health query is a network call. Its answer is the parameter `DirectoryReply`. The tag matching and passing-only filtering done by the server are the server's.
- `Checks.AggregatedStatus()` belongs to the Consul library. Each entry carries its aggregated status as a string instead.
- The `c.cc != nil` guards are not modelled. An action is what the loop hands to the consumer, and when there is no consumer the state changes in the same way.
- The URL itself is not parsed. The input is the URL's path and its decoded query (`url.Values`) as a map from key to values.
- The registered scheme `consul` (options.go:18) is read only by builder.go's `Scheme`, which is not part of this model.
- Strings.Lower: lower-cases ASCII letters only, whereas Go's `strings.ToLower` also maps other Unicode letters.
- The error messages' wording is not modelled; each error carries the key or value its message quotes.
- `WaitIndex` is a `uint64` in Go and a `nat` here. The loop only compares and assigns it, so no wrap-around can occur.
- Whether the entry slice given to `filterPreferOnlyHealthy` is nil is not modelled. Its result is always copied into a fresh non-nil address list.
