# examcheck, modelled in Dafny

examcheck polls the Swedish driving-exam booking endpoint for open exam
slots ("occasions") and posts a plain-text notification to an ntfy.sh
topic when it finds any. Around its I/O sits a small amount of pure logic,
and that is what this project models and proves things about:

- **Identifier list** (`readSsns`): the text of `personnummer.txt` is
  CRLF-normalised, split on `"\n"`, and blank pieces are dropped
  (`identifiers.dfy`, on top of Go's `strings.Split`, `strings.Join` and
  `strings.ReplaceAll(s, "\r\n", "\n")` in `strings.dfy`).
- **Query** (`newRequest`): a `bookingSession` and an
  `occasionBundleQuery` built from an identifier, a primary location and
  the nearby locations, every other field fixed (`request.dfy`).
- **Message** (tail of `doCheck`): the occasions of the first bundle, one
  `"<date> <time> at <locationName>"` line each, joined by `"\n"`
  (`response.dfy`).
- **Nearby locations** (`main`): the non-zero codes among `-location2`,
  `-location3`, `-location4`, in that order (`locations.dfy`).
- **Loop** (`loop`): read, refuse an empty list, pick one identifier,
  query, notify when the message is non-empty; the first failure ends the
  loop (`driver.dfy`).

`base.dfy` holds the Go value shapes: a 64-bit `Int64`, `Option` for nil
pointers, `Result` for `(value, error)` returns and `Slice` for slices
whose nil-ness is visible in JSON (`null` versus `[]`).

The file's contents, the random draw, the endpoint's reply and the relay
topic are inputs: a round takes the file as `Result<string, string>`
(a read error or the text), the draw as a `nat`, and the endpoint as a
function from the query to the decoded reply or an error.

Where the code and its comments differ, the model follows the code:
`IgnoreBookingHindrance` is set to `true` (main.go:54) although the field
comment says `false`. An identifier file that yields no identifiers is not
an error of `readSsns` (main.go:122-135): it returns the empty list, and it
is the loop (main.go:200-202) that stops with the "No personnnumer present"
error.

## Model

| member | source | states |
|---|---|---|
| Strings.Split | main.go:129 | `strings.Split` on `"\n"`: one piece more than there are separators, and no piece contains the separator |
| Strings.Join | main.go:117 | `strings.Join`: the empty list joins to `""`; otherwise the result starts with the first part and is as long as all parts plus one separator between each two neighbours |
| Strings.JoinSplit | main.go:129 | joining the pieces of a split with the separator gives back the original text |
| Strings.SplitJoin | main.go:117 | splitting a join of separator-free pieces gives back the pieces |
| Strings.ReplaceCrLf | main.go:129 | `strings.ReplaceAll(s, "\r\n", "\n")` never lengthens the text and keeps the number of `'\n'` |
| Strings.ReplaceCrLfByLines | main.go:129 | the normalised text is the raw lines, each `'\n'`-ended line stripped of a trailing `'\r'`, rejoined with `"\n"` |
| Strings.LinesOfReplaceCrLf | main.go:129 | the lines of the normalised text are the raw lines with CRLF terminators trimmed; a `'\r'` not followed by `'\n'` stays |
| Strings.ReplaceCrLfAllLf | main.go:129 | normalisation leaves only `'\n'` exactly when the text is nothing but `"\n"` and `"\r\n"` breaks |
| Strings.SplitAllEmpty | main.go:129-130 | every piece of a split is empty exactly when the text consists of separators only |
| Identifiers.Parse | main.go:127-134 | every identifier is non-empty and contains no `'\n'` |
| Identifiers.NonEmptyFrom | main.go:129-133 | every kept identifier is one of the split pieces |
| Identifiers.NonEmptyKeeps | main.go:129-133 | every non-empty piece is kept |
| Identifiers.NonEmptyCounts | main.go:129-133 | each non-empty piece is kept exactly as often as it occurs among the pieces, and the empty piece never |
| Identifiers.NonEmptyNone | main.go:129-133 | the filter keeps nothing exactly when every piece is empty |
| Identifiers.KeepNonEmpty | main.go:128-133 | the loop that appends each non-empty piece returns exactly the non-empty pieces, in their order |
| Identifiers.Read | main.go:122-135 | an unreadable file gives the error "Failed to read personnumer: <cause>"; a readable one gives its lines with CRLF terminators removed and blank lines dropped, in file order, empty exactly when the text is only line breaks, each identifier non-empty and free of `'
'` |
| Identifiers.ParseByLines | main.go:127-134 | the identifiers are the file's lines with CRLF terminators removed and blank lines dropped, in file order |
| Identifiers.ParseEmpty | main.go:129-134 | the list is empty exactly when the text holds nothing but line breaks (the empty text included) |
| Identifiers.ParseSingleLine | main.go:129-133 | a non-empty text without `'\n'` is a single identifier, lone `'\r'` included |
| Request.NewRequest | main.go:49-67 | the query carries the identifier, location and nearby list unchanged, the documented constants, and Go zero values everywhere else |
| Request.InputsOfNewRequest | main.go:52-59 | the three inputs can be read back off the query |
| Request.NewRequestRange | main.go:18-67 | a request is built by `newRequest` from its own inputs exactly when all its fixed fields hold their documented values |
| Request.NewRequestInjective | main.go:49-67 | different inputs give different queries |
| Response.FormatOccasion | main.go:115 | a line is the date, then the time, then the location name, with five separator characters |
| Response.BuildMessage | main.go:112-119 | the append loop over the first bundle's occasions, joined by `"
"`, gives the message: `""` without a bundle |
| Response.Message | main.go:112-119 | the message is non-empty exactly when there is a bundle and the first holds an occasion |
| Response.MessageIgnoresLaterBundles | main.go:114 | bundles after the first never change the message |
| Response.MessageLines | main.go:113-117 | when no field holds `'\n'`, the message's lines are exactly the formatted occasions of the first bundle, in order |
| Response.FormatOccasionInjective | main.go:115 | when date and time contain no space, equal lines come from equal occasions |
| Response.SpaceDelimited | main.go:115 | a space-free word followed by a space is recovered from the text it starts |
| Response.MessageExample | main.go:112-117 | one occasion on 2024-05-01 at 10:00 at "Site A" gives the message "2024-05-01 10:00 at Site A" |
| Locations.Nearby | main.go:176-185 | at most three codes, none of them 0; the slice stays nil exactly when all three flags are 0 |
| Locations.NearbyIsNonZero | main.go:176-185 | the list is the non-zero codes of location2, location3, location4, in that order |
| Driver.Pick | main.go:204 | the picked identifier is in the list, and each index of the list can be drawn |
| Driver.Step | main.go:196-214 | a read error or an empty list ends the round; otherwise the query is `newRequest` of a listed identifier, the message is that of the reply, and a relay post to `https://ntfy.sh/<topic>` carrying the message happens exactly when the message is non-empty |
| Driver.NoQueryWithoutIdentifiers | main.go:196-204 | a file of nothing but line breaks ends the loop with the "no personnummer" error whatever the endpoint would answer |
| Driver.ErrorTexts | main.go:186-204 | the text printed after "Error: " is "Failed to read personnumer: <cause>" for an unreadable file (main.go:125), "No personnnumer present. Please add at least one." for an empty list, and the endpoint's own error otherwise |
| Driver.CheckFailurePropagates | main.go:204-207 | an endpoint error ends the round with that error, unchanged |
| Driver.NotifiesExactlyOnSlots | main.go:204-211 | a post happens exactly when the reply's first bundle holds an occasion, and carries the reply's message |
| Driver.QueryLocations | main.go:176-186 | the query carries location1 as given, even 0, and the non-zero codes of the other three flags |
| Driver.Run | main.go:194-207 | the loop plays rounds in order, records each successful round, and stops at the first failure, which it returns |
| Driver.Loop | main.go:192-222 | over any finite prefix of rounds of `loop(topic, location, nearby)`, every recorded round succeeded in order, and a failure ends the loop at the round that raised it |

## Left out

- HTTP: the query POST, its headers (User-Agent, Content-Type), the TLS
  setting and reading the body are I/O; the endpoint is an input function.
- JSON encoding of the query and decoding of the reply (encoding/json);
  the reply enters the model already decoded. The `json:occasions` tag of
  `bundle` works only through encoding/json's case-insensitive field
  matching and is not modelled.
- Reading `personnummer.txt`: the file enters as its text or an error.
- The ntfy.sh POST itself, whose outcome the program ignores; the model
  records the URL and body it would send.
- Sleeps (10 minutes after a notification, 30 seconds per round), the
  hourly status line and its counter: they depend on the clock.
- Flag parsing, defaults and the usage text; the model starts from the
  parsed integers and topic.
- Printing the error and exiting with status 1 in `main`; `Fatal.Text`
  gives the printed error text.
- The log line `HTTP: <status>` that `doCheck` prints for every reply
  (main.go:102): an output effect, like the hourly status line.
- Go strings are byte strings; the model uses `seq<char>`. Every operation
  modelled compares only the ASCII characters `'\r'`, `'\n'` and `' '` or
  tests emptiness, which agree in both views; only the length formula of
  `Response.FormatOccasion` counts characters rather than bytes.
- Driver.Pick: states that the pick lies in the list and that every index
  is reachable; that `rand.Intn` draws uniformly is not expressible here.
- Driver.Loop: covers a finite prefix of the endless loop.
