# Alpha Innotec heat-pump exporter: reading and cleaning samples

This project models the core of the exporter that polls an Alpha Innotec
heat-pump controller over its websocket interface. There are two clients,
one in Rust and one in Go. Each poll does the following:

- logs in with `LOGIN;<code>` and receives the controller's menu tree;
- resolves each configured sample's menu path (`"Informatie > Ingangen"`) to a page id;
- requests that page with `GET;<id>`;
- reads the configured item's value from the page reply;
- scales the value by the sample's multiplier and copies the sample's
  descriptive fields.

The Rust client then replaces any counter that grew by more than 10% since
the previous measurement with the previous sample. The model also covers the
small validators: configuration defaults, the Go client's constructor and
the Modbus heat-pump client's constructor.

Modules, one per file:

| module | file | what it holds |
|---|---|---|
| `Wrappers` | wrappers.dfy | `Option` and `Result` |
| `Errors` | errors.dfy | the client errors, each naming what failed |
| `Model` | model.dfy | samples, sample configurations, `Config` with its defaults, measurements |
| `NavigationTree` | navigation.dfy | the menu tree, path splitting, resolution, the Rust stub |
| `PageItems` | page_items.dfy | the item patterns of both clients as a literal scanner, and number parsing |
| `Transport` | transport.dfy | frames, the drain loop of `send_and_await`, the `Connection` class |
| `Grouping` | grouping.dfy | grouping configurations per page (intended and stub), visiting order |
| `Sanitize` | sanitize.dfy | the counter sanity check against the previous measurement |
| `RustClient` | rust_client.dfy | the Rust poll: login, page fetches, sanitising |
| `GoClient` | go_client.dfy | the Go constructor and poll, one request per sample |
| `Heatpump` | heatpump.dfy | the Modbus client's constructor checks |

The socket is a finite sequence of incoming frames with a read cursor, and
the frames the client writes are recorded in order. The Rust map of groups
has no specified iteration order. That order is a parameter `order`, which
lists every page once, and the properties hold for every such order. The
Go channels become a sequence of deliveries, each either a response or the
interrupt signal.

Where the repository's documentation and its code differ, the model follows
the code:

- A Close frame does not end the wait in `send_and_await`. It is answered
  with `Close(None)` and draining continues (src/websocket_client.rs:141-144).
- When several entries on a page match an item, the first one wins. This is
  what `Regex::captures` and `FindStringSubmatch` do.
- `ConfigSample::set_defaults` and `Config::set_defaults` are modelled, since
  the code defines them next to the types.

## Model

| member | source | states |
|---|---|---|
| Model.ConfigSample.WithDefaults | src/model.rs:100-105 | The resulting multiplier is never 0; a non-zero multiplier is kept, so the configuration is unchanged; no field other than the multiplier changes |
| Model.WithDefaultsIdempotent | src/model.rs:101-105 | Applying the defaults twice is the same as applying them once; a multiplier of exactly 0 becomes 1 |
| Model.Config.SetDefaults | src/model.rs:77-81 | Each configuration is replaced in place by its defaulted version; location, length and order are unchanged; afterwards every multiplier is non-zero |
| Model.DescribesAllAppend | src/websocket_client.rs:199-210 | Position-wise agreement of samples with configurations survives concatenation, which is how samples from successive pages line up with their configurations |
| NavigationTree.Split | client/websocket/navigation.go:26 | Splitting on `" > "` yields at least one segment, no segment contains the separator, joining the segments gives back the path, and each segment but the last ends at the first separator after its start |
| NavigationTree.SplitUnique | client/websocket/navigation.go:26 | Any list of segments with those four properties is the one Split gives, so the left-to-right split is fully determined |
| NavigationTree.SplitOverlapping | client/websocket/navigation.go:26 | Where separators overlap, the first wins: `"a > > b"` splits into `"a"` and `"> b"` |
| NavigationTree.FindSeparator | client/websocket/navigation.go:26 | The result is the first occurrence of the separator at or after the start, or none exists |
| NavigationTree.FirstNamed | client/websocket/navigation.go:30-37 | The first child in order whose name equals the segment, and no earlier one has that name; none means no child has it |
| NavigationTree.WalkIsWalk | client/websocket/navigation.go:27-42 | The walk succeeds with a chain exactly when each node of the chain is the first child named by its segment among the children of the previous node (the root's items for the first) |
| NavigationTree.WalkSnoc | client/websocket/navigation.go:28-42 | Adding a segment extends a successful walk by the first child of the last node with that name, fails with that segment when there is none, and keeps an earlier failure |
| NavigationTree.WalkPrefix | client/websocket/navigation.go:28-42 | If a path resolves, every prefix of its segments resolves to the matching prefix of the chain |
| NavigationTree.WalkFailureNamesSegment | client/websocket/navigation.go:39-41 | A failing walk fails at a segment k such that the segments before k resolve and segment k names no child; the error names that segment, not the whole path |
| NavigationTree.WalkFailureExtends | client/websocket/navigation.go:39-41 | Once a segment fails, further segments do not change the error |
| NavigationTree.WalkDescends | client/websocket/navigation.go:33-34 | Each node of a successful chain lies in the subtree of every earlier node |
| NavigationTree.ResolvedIsItem | client/websocket/navigation.go:33-44 | A resolved id is the id of an item in the subtree of a top-level item, whose name is the last segment, so it is never the root's id |
| NavigationTree.EmptyPath | client/websocket/navigation.go:26-35 | The empty path resolves exactly when some top-level item has the empty name |
| NavigationTree.GetNavigationItemID | client/websocket/navigation.go:24-45 | The segment loop with its inner first-match loop returns exactly the resolution of the path |
| NavigationTree.TestTopLevelResolves | client/websocket/navigation_test.go:49-52 | `"Informatie"` resolves to `"0x45df90"` on the test tree |
| NavigationTree.TestNestedResolves | client/websocket/navigation_test.go:60-63 | `"Informatie > Ingangen"` resolves to `"0x455968"` on the test tree |
| NavigationTree.GetNavigationItemIdStub | src/websocket_client.rs:318-339 | The Rust resolver as written succeeds with the empty id for every path |
| NavigationTree.StubLosesPageId | src/websocket_client.rs:318-339 | On the test tree the stub's result differs from the resolution of `"Informatie > Ingangen"` |
| PageItems.IndexOf | src/websocket_client.rs:233 | The first position at or after the start holding the character (how `[^']*` and `[^<]*` end), or none |
| PageItems.NumericRun | src/websocket_client.rs:233 | The longest run of digits and dots from the position, as `[0-9.]+` captures greedily |
| PageItems.Capture | client/websocket/client.go:296 | The Go capture always succeeds, possibly empty; any capture is a prefix of the value; the Rust capture is never empty |
| PageItems.FirstMatch | src/websocket_client.rs:236 | The first position where the pattern matches, with no match before it; none means no match anywhere |
| PageItems.Scan | src/websocket_client.rs:236-244 | No token exactly when the pattern matches at no position of the page; otherwise the token of the first (leftmost) matching position, with no match before it |
| PageItems.ParseUnsigned | src/websocket_client.rs:260 | A value exactly for digits and dots with at most one dot and at least one digit; the value is not negative |
| PageItems.ParseDecimal | src/websocket_client.rs:260 | A value exactly for an optional minus sign followed by an unsigned decimal; a negative value comes from a minus sign |
| PageItems.ReadToken | src/websocket_client.rs:253-261 | Rust's `---` reads as 0; any other token succeeds exactly when it is a decimal and then reads its decimal value; a failure names the token |
| PageItems.ItemFromResponse | src/websocket_client.rs:225-263 | "No match for item" exactly when the Rust pattern matches nowhere; any other failure is a parse failure of the token |
| PageItems.GoItemFromResponse | client/websocket/client.go:292-318 | "No match for item" exactly when the Go pattern matches nowhere; any other failure is a parse failure of the token |
| PageItems.Lookup | src/websocket_client.rs:233 | The token of the first entry named after the item whose value the capture accepts (every earlier entry of that name has a value it refuses), or none when no entry with that name has such a value |
| PageItems.ScanRendered | src/websocket_client.rs:233-244 | On a page of well-formed entries, scanning with the pattern gives the token of the first entry named after the item whose value the capture accepts, so a same-named entry with a non-numeric value is skipped |
| PageItems.ReadersOnPage | src/websocket_client.rs:225-263 | Both readers on a well-formed page: no qualifying entry gives "No match for item", otherwise the first qualifying entry's token is read |
| PageItems.ParseFixedPoint | src/websocket_client.rs:260 | A token `whole.fraction` of digits parses to its decimal value |
| PageItems.ParseDecimalValue | src/websocket_client.rs:260 | Every token the float parser accepts parses to its value: the digits as an integer when there is no point, otherwise the whole and fractional digits on either side of the point wherever it stands, negated exactly when the token starts with a minus sign |
| PageItems.ParseDecimalPoint | client/websocket/client.go:312 | A token with its point at a given position parses to the parts on either side of it, with the token's sign |
| PageItems.ParseInteger | src/websocket_client.rs:260 | The integer token "1200", as in a flow rate of "1200 l/h", parses to 1200.0 |
| PageItems.ParseNegative | src/websocket_client.rs:233 | The negative token "-3.5", which the optional minus sign of the Rust pattern admits, parses to -3.5 |
| PageItems.ParseLeadingPoint | client/websocket/client.go:312 | The token ".5", with no digits before the point, parses to 0.5 |
| PageItems.ParseRefused | src/websocket_client.rs:260 | "1.2.3", with two points, and a lone "-" do not parse |
| PageItems.GoRefusesNegative | client/websocket/client.go:296 | The Go capture takes the empty token from a value starting with a minus sign, and the float parser refuses that token |
| PageItems.RustReadsNegative | src/websocket_client.rs:233 | The Rust pattern keeps the minus sign of "-3.5°C" and the token reads as -3.5 |
| PageItems.GoFailsOnNegative | client/websocket/client.go:296-315 | When the first entry named the item holds a negative reading on a well-formed page, the Go reader fails with the parse error of the empty token |
| PageItems.TestReadsAanvoer | client/websocket/client_test.go:76-79 | "Aanvoer" on the temperature page reads 22.3 with both patterns, even though "Aanvoer max." follows |
| PageItems.TestMissingItem | client/websocket/client_test.go:89-91 | "BestaatNiet" on the temperature page is "No match for item" with both patterns |
| PageItems.TestReadsPressure | client/websocket/client_test.go:94-105 | "HD" on the inputs page reads 8.1 with the Rust pattern; the Go pattern fails with the empty token of the earlier "Uit" entry |
| PageItems.CaptureInputs | src/websocket_client.rs:520-531 | "Uit" has no Rust capture and an empty Go capture; "8.10 bar" captures "8.10" |
| Transport.Reply | src/websocket_client.rs:141-151 | A ping is answered with a pong with its data, a close with a close without data; pongs and binary frames get no answer |
| Transport.Drain | src/websocket_client.rs:136-156 | At most the available items are read, at least one if any; a success is the text of the last item read |
| Transport.DrainStopsAtFirst | src/websocket_client.rs:136-151 | Draining stops at the first text frame or receive error: the replies are those of the items before it, in order, exactly k+1 items are read, and the result is the text or the receive error |
| Transport.DrainExhausted | src/websocket_client.rs:152-156 | With no text frame and no receive error, every item is read and answered and the result is "No response received" |
| Transport.RepliesCons | src/websocket_client.rs:136-151 | The replies to a run of items are the first item's reply followed by the rest's |
| Transport.RequestsAppend | src/websocket_client.rs:134 | The text frames written by two runs are those of the first run followed by those of the second |
| Transport.DrainWritesNoRequest | src/websocket_client.rs:141-151 | Draining never writes a text frame: only pongs and closes |
| Transport.Connection.SendAndAwait | src/websocket_client.rs:128-157 | The request is written first, then the drain's replies; the cursor moves past the items read; the result is the drain's |
| Sanitize.ExceedsMeaning | src/websocket_client.rs:282-283 | The ratio test, with the division by zero made explicit, means growth of more than 10% above a positive previous value, a value below 1.1 times a negative one, and any positive value after a zero |
| Sanitize.FirstSameSeries | src/websocket_client.rs:275-291 | The first previous sample with the same five descriptive fields, with none before it; none means no previous sample has them |
| Sanitize.SanitizeAll | src/websocket_client.rs:272-297 | Same length, and each sample is sanitised on its own against the previous samples |
| Sanitize.SanitizeSamples | src/websocket_client.rs:265-300 | The nested loop returns a list of the same length and order, with each sample replaced by its sanitised version |
| Sanitize.SanitizeKeepsSeries | src/websocket_client.rs:276-288 | A sanitised sample stays in its series, and is either the current sample or one of the previous samples |
| Sanitize.SanitizeLeavesOthers | src/websocket_client.rs:282 | Samples that are not counters, or have no previous sample in their series, are kept unchanged |
| Sanitize.SanitizedCounterBounded | src/websocket_client.rs:282-287 | After sanitising, a counter whose previous value is positive is at most 1.1 times that previous value |
| Sanitize.SanitizeIdempotent | src/websocket_client.rs:272-297 | Sanitising twice against the same previous samples gives the same result as sanitising once |
| Sanitize.SanitizeExamples | src/websocket_client.rs:275-290 | A counter doubling is replaced by the previous sample, 5% growth is kept, and only the first previous sample of the series is consulted |
| Grouping.Filter | src/websocket_client.rs:116-121 | A page's group holds exactly the configurations with that navigation path, and is never longer than the input |
| Grouping.FilterAppend | src/websocket_client.rs:116-121 | Grouping distributes over concatenation, so a group keeps its configurations in input order |
| Grouping.GroupSampleConfigsPerNavigation | src/websocket_client.rs:116-121 | The loop's map has exactly the pages of the configurations as keys, and each page's group holds exactly its configurations, in input order |
| Grouping.GroupsCoverEveryConfig | src/websocket_client.rs:116-121 | Every configuration is in the group of its own page |
| Grouping.GroupSampleConfigsStub | src/websocket_client.rs:110-126 | The function as written returns a map without keys |
| Grouping.EnumeratesCount | src/websocket_client.rs:183-185 | A visiting order that lists every page once has exactly as many entries as there are pages |
| Grouping.StubLosesConfigs | src/websocket_client.rs:110-126 | With the stub, the first configuration of a non-empty list belongs to its page's intended group, but that page is not a key, so it is never read |
| Grouping.FilterAll | src/websocket_client.rs:185 | A configuration is read when the pages are visited in an order exactly when its page is among them |
| Grouping.GatheredIsFilterAll | src/websocket_client.rs:185 | Visiting the intended groups in an order reads each page's configurations, page after page |
| Grouping.FilterAllPermutes | src/websocket_client.rs:185-211 | Visiting every page once reads every configuration exactly once |
| Grouping.GroupsPermuteConfigs | src/websocket_client.rs:183-213 | In any iteration order of the intended groups, the configurations visited are a permutation of the input configurations |
| RustClient.PageSamples | src/websocket_client.rs:199-210 | A page's samples succeed exactly when every item reads; then there is one sample per configuration, with the descriptive fields copied and the value scaled by the multiplier; otherwise the error is that of the first item that fails |
| RustClient.PageSamplesStep | src/websocket_client.rs:199-210 | Reading one more configuration appends its sample or aborts with its error |
| RustClient.PageSamplesStops | src/websocket_client.rs:200 | Once an item fails, later configurations do not change the result |
| RustClient.FetchPageSuccess | src/websocket_client.rs:185-210 | A successful page fetch resolved the page, wrote `GET;<id>` followed by the drain's replies, received a text reply, and appended that page's samples |
| RustClient.FetchPageFrom | src/websocket_client.rs:183-211 | A page fetch depends on the samples gathered so far only by appending to them |
| RustClient.FetchStep | src/websocket_client.rs:185-211 | After successful pages, the next page is fetched from the state they leave |
| RustClient.FetchStops | src/websocket_client.rs:187-200 | The first failing page ends the poll: later pages change nothing |
| RustClient.FetchSamples | src/websocket_client.rs:183-213 | A successful poll's samples line up one for one with the configurations of the pages in visiting order |
| RustClient.RequestsForSnoc | src/websocket_client.rs:187-192 | One more visited page adds its `GET;<id>` request |
| RustClient.FetchPageRequests | src/websocket_client.rs:187-192 | A successful page fetch adds exactly one request, `GET;<id>` with the id the page path resolves to; its other writes are pongs and closes |
| RustClient.FetchRequests | src/websocket_client.rs:187-192 | A successful poll writes exactly one `GET;<id>` text frame per visited page, in visiting order, with the id its path resolves to |
| RustClient.StubPollReadsNothing | src/websocket_client.rs:110-126 | With the grouping stub as written, the only request the poll writes is `LOGIN;<code>`, and a poll that gets past the login returns an empty list of samples |
| RustClient.SessionSplits | src/websocket_client.rs:84-96 | A poll fails with the login's receive error, or with the parse error of the login reply, or otherwise fetches the pages after `LOGIN;<code>` with the parsed tree |
| RustClient.Sanitized | src/websocket_client.rs:98-103 | Without a previous measurement the samples are kept as they are; the length is always kept |
| RustClient.SanitizedKeepsSeries | src/websocket_client.rs:98-103 | Each sample keeps its series, and is either the current sample or one of the previous measurement's samples |
| RustClient.WebsocketClient.Login | src/websocket_client.rs:159-173 | Writes `LOGIN;<code>` then the drain's replies; the result is the drain's error, or the parse of the reply |
| RustClient.WebsocketClient.ReadPage | src/websocket_client.rs:199-210 | The item loop over a page reply computes exactly the page's samples |
| RustClient.WebsocketClient.FetchGroup | src/websocket_client.rs:187-210 | Resolving, requesting and reading one page changes the socket and returns exactly as one page fetch does |
| RustClient.WebsocketClient.GetSamples | src/websocket_client.rs:175-214 | The loop over the groups in `order` leaves the socket and returns exactly as the fetch of all pages, stopping at the first error |
| RustClient.WebsocketClient.GetMeasurement | src/websocket_client.rs:59-108 | Login, the intended grouping and page fetches with the path resolver of client/websocket/navigation.go leave the socket as the poll does; on success the measurement carries the id, the source tag, the location, the timestamp and the sanitised samples; otherwise the poll's error |
| RustClient.PollCoversConfigs | src/websocket_client.rs:88-96 | With the intended grouping, a successful poll yields exactly one sample per configuration; the configurations read are a permutation of the input, and each sample describes its configuration |
| GoClient.NewClient | client/websocket/client.go:32-45 | The client is built exactly when the host is set and the port is positive, keeping host, port and login code; an empty host is reported first |
| GoClient.NewClientChecks | client/websocket/client.go:33-38 | An empty host is reported whatever the port; ports 0 and -8214 are refused; 8214 is accepted |
| GoClient.Await | client/websocket/client.go:244-250 | A wait takes at most one delivery: a response's payload, or the empty response on an interrupt |
| GoClient.SampleStep | client/websocket/client.go:142-167 | A sample read either adds exactly one sample or records an error and adds none; a path that does not resolve records its error and writes no request; a path that resolves writes exactly `GET;<id>` |
| GoClient.SampleStepAdds | client/websocket/client.go:145-164 | A successful step resolved the page and read the item from the awaited reply; it appends exactly one sample, with the configuration's descriptive fields and the number read times the multiplier |
| GoClient.Run | client/websocket/client.go:127-133 | The loop never adds more samples than configurations, and ends without an error exactly when every configuration added its sample |
| GoClient.RunStep | client/websocket/client.go:127-133 | While no error occurred, the next configuration is read from the state the earlier ones leave |
| GoClient.RunStops | client/websocket/client.go:129-131 | The first failing configuration ends the loop: later configurations change nothing |
| GoClient.RunSamples | client/websocket/client.go:127-133 | The samples line up one for one with a prefix of the configurations, in order |
| GoClient.RunCommands | client/websocket/client.go:127-167 | After the commands already written, each sample was requested with one `GET;<id>` for its own page, in order; at most one more request, the failing one, follows, and none when the loop ends without an error |
| GoClient.SampleStepFrom | client/websocket/client.go:142-167 | A sample read depends on the samples gathered so far only by appending to them |
| GoClient.PollShape | client/websocket/client.go:121-133 | The first command is `LOGIN;<code>`; the samples are a prefix of the configurations, complete when there is no error, and an incomplete list always comes with an error |
| GoClient.Client.SendAndAwait | client/websocket/client.go:234-251 | Writes the command, then takes one delivery |
| GoClient.Client.Login | client/websocket/client.go:253-265 | Writes `LOGIN;<code>` and returns the parse of the reply |
| GoClient.Client.GetSampleValue | client/websocket/client.go:267-280 | Writes `GET;<id>` and returns the item read from the reply with the Go pattern |
| GoClient.Client.GetSample | client/websocket/client.go:142-167 | The descriptive fields are always copied; a path that does not resolve returns its error without a request; on success the value is the read number times the multiplier; all as one sample read |
| GoClient.Client.GetMeasurement | client/websocket/client.go:113-133 | The commands, deliveries consumed, error and samples are those of the poll; the measurement carries the id, source tag, location and timestamp, with the samples read before any error |
| Heatpump.NewHeatpumpClient | heatpumpClient.go:19-31 | The client is built exactly when the host is set and the port is 502 or in 49152..65535; an empty host is reported first; the unit id is not kept (0) |
| Heatpump.PortBoundaries | heatpumpClient.go:23-25 | 502, 49152 and 65535 are accepted; 501, 503, 49151 and 65536 are refused |
| Heatpump.CustomRangeAccepted | heatpumpClient.go:23-30 | Every port of 49152..65535 with a host is accepted, with unit id 0 |
| Heatpump.HostCheckedFirst | heatpumpClient.go:20-25 | An empty host with a refused port reports the missing host |

## Left out

- Opening the socket, the websocket handshake and the origin and protocol
  headers (src/websocket_client.rs:74-82, client/websocket/client.go:62-84)
  are network I/O. The socket is a sequence of incoming frames.
- Send failures of the Rust sender (the `?` after `send_message`) are left
  out: writing a frame always succeeds in the model.
- The Go goroutines, channels, ticker and signal handling
  (`receiveResponse`, `sendCommands`, client/websocket/client.go:87-111,
  169-232) are concurrency. What one wait observes is kept: the next
  delivery, either a response or the interrupt.
- RustClient.Session: models the Rust poll with its two stubs corrected,
  not as written. Pages are resolved with `NavigationTree.Resolver`, the walk
  of client/websocket/navigation.go, instead of `get_navigation_item_id`
  (src/websocket_client.rs:318-339, which returns `Ok("")`). Groups come
  from `Grouping.GroupSampleConfigsPerNavigation` instead of
  `group_sample_configs_per_navigation` (src/websocket_client.rs:110-126,
  which returns an empty map). The poll as written is covered by
  `RustClient.StubPollReadsNothing` and `NavigationTree.StubLosesPageId`.
- RustClient.WebsocketClient.FetchGroup: resolves the page with the
  corrected resolver `NavigationTree.GetNavigationItemID`, not the stub.
- RustClient.WebsocketClient.GetSamples: resolves every page with the
  corrected resolver, not the stub.
- RustClient.WebsocketClient.GetMeasurement: groups with the corrected
  grouping and resolves with the corrected resolver, not the two stubs.
- GoClient.Await: when no delivery is left, the wait ends as on an
  interrupt. In the program it would block forever.
- Go's `Failed logging in` and `Failed navigating to` wrappers
  (client/websocket/client.go:255-257, 270-272) are not modelled, because
  `sendAndAwait` never sets its error.
- XML deserialisation of the menu tree (`serde_xml_rs::from_str`,
  `xml.Unmarshal`) is a library call. It is the parameter `parse`, and the
  tree is a datatype.
- The regular-expression engine is not modelled. The item name is matched
  literally, although the programs interpolate it unescaped, so a `.` in
  "Gemiddelde temp." would match any character there.
- IEEE double rounding in parsing, multiplication and division is not
  modelled; numbers are exact reals. Division by a zero previous value is
  written out: a positive value exceeds it, zero and negative values do not.
- Identifiers (`Uuid::new_v4`, `uuid.New`) and timestamps (`Utc::now`,
  `time.Now`) are nondeterministic. They are the parameters `id` and `now`.
- `GetTotalWhOut` in heatpumpClient.go is Modbus I/O and is not modelled.
- The unit-test pages are abbreviated to the entries the tests depend on:
  three temperature entries and five input entries, in page order.
- domain.go, api/v1/config.go, main.go, src/main.rs and
  src/exporter_service.rs are wiring and data declarations. They are not
  part of this model.

## Findings

| source | as written | input that shows it | evidently intended | confidence | as-written member | corrected member |
|---|---|---|---|---|---|---|
| src/websocket_client.rs:318-339 | `get_navigation_item_id` returns `Ok("")` for every path; the walk is only a comment | the test tree and path `"Informatie > Ingangen"`: the result is `""`, not `"0x455968"` | resolve the path as the Go `GetNavigationItemID` does | high (not executed) | NavigationTree.GetNavigationItemIdStub, NavigationTree.StubLosesPageId | NavigationTree.GetNavigationItemID |
| src/websocket_client.rs:110-126 | `group_sample_configs_per_navigation` returns an empty map; the grouping loop is only a comment | any non-empty configuration list: no page is requested and the poll returns no samples | one group per page, holding its configurations in input order | high (not executed) | Grouping.GroupSampleConfigsStub, Grouping.StubLosesConfigs, RustClient.StubPollReadsNothing | Grouping.GroupSampleConfigsPerNavigation |
| client/websocket/client.go:296 | the Go pattern captures `[0-9.]*`, so the first entry named "HD", with value "Uit", matches with an empty capture and `ParseFloat("")` fails; for the same reason every negative reading is captured as the empty token and fails | item "HD" on the inputs page of client/websocket/client_test.go:94-105: an error instead of 8.10 | skip entries whose value does not start with a number, as the Rust pattern does by requiring at least one digit or dot in its capture | medium (not executed) | PageItems.GoItemFromResponse, PageItems.TestReadsPressure, PageItems.GoRefusesNegative, PageItems.GoFailsOnNegative | PageItems.ItemFromResponse, PageItems.RustReadsNegative |
