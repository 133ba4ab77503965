# NetworkManager: dispatcher, keyfile, PEM, bond and connection models

This Dafny project models and verifies the parts of NetworkManager where several functions have to fit together:

- **The dispatcher's script scheduler** (`ScriptServer.dfy`, `DispatcherState.dfy`, `BoundedWaiting.dfy`,
  `Dispatcher.dfy`). A request carries
  a list of scripts. No-wait scripts start at once; wait scripts run one at a time, globally and in the order of the
  requests. `ScriptServer` is a small reference automaton that says which line may follow which log, and proves what
  holds of all its runs. `Dispatcher` is the program: a class with the global state, whose methods are the functions of
  the daemon. Each method proves that it moves the reference automaton along a ghost log and leaves nothing startable
  unstarted. So the theorems about runs are theorems about the daemon, for every sequence of arrivals, exits, timeouts
  and spawn failures (the failures are a parameter `bad` of each event).
- **The keyfile printers and parsers.** Key names (`KeyCodec.dfy`), dictionaries (`UserData.dfy`), byte strings
  (`ByteStrings.dfy`), addresses and routes under numbered keys (`KeyIndex.dfy`, `IpText.dfy`, `IpLists.dfy`),
  certificate values (`Certs.dfy`, `Base64.dfy`, `Utf8.dfy`) and file names (`Filenames.dfy`). Each printer and parser
  is a method over buffers, loops or a keyfile group, proved equal to a function; the round trips are lemmas about the
  functions.
- **PEM files with encrypted keys** (`Cipher.dfy`, `PemParser.dfy`, `Pem.dfy`): the encapsulation of sections 4.6.1.1
  and 4.6.1.3 of RFC 1421, base64 of section 4 of RFC 4648, padding of section 6.3 of RFC 5652, and the MD5 key chain.
- **Bond options** (`Bond.dfy`, `BondSetting.dfy`, `BondKeyfile.dfy`): verification, normalisation, the sorted index,
  and writing to a keyfile and replaying on a new bond.
- **Connections** (`Connections.dfy`, `Severities.dfy`): the severity of a whole profile, and the normalisation of its
  IP settings.
- **Comparison of property values** (`Variants.dfy`, `PropertyCompare.dfy`, `PropertyEquality.dfy`).

`Options.dfy`, `Text.dfy`, `Sorting.dfy`, `StrOrder.dfy`, `StrBuf.dfy` and `KeyFile.dfy` hold what the others share. A
byte is a `char` below 256 and a C string a sequence of bytes without NUL; where the program works on a writable buffer,
the model has an array with its terminator.

`dafny verify dfyconfig.toml` checks everything.

## Where the code differs from what one would expect

- An absolute certificate path of exactly 500 bytes does not survive the keyfile: the writer compares the length without
  the NUL with the limit, the reader with it (`Certs.CertRoundTrip`, and `Certs.FiveHundredBytesAreLost` for a path).
- A relative certificate path is made absolute by the writer (`Certs.RelativePathIsMadeAbsolute`).
- Of a relative certificate path in a keyfile only the last component counts: `sub/ca.pem` is `ca.pem` in the base
  directory (`Certs.RelativeNameRead`).
- `miimon=00` is off for the bond's verification but enabled for `nm_setting_bond_add_option`
  (`BondKeyfile.LeadingZeroLoses`); `BondKeyfile.BondRoundTrip` has the exact condition.
- `nm_property_compare` does not always find out whether two values are equal with dictionaries read as maps. It passes
  boxed values outside `a{sv}`, and the entries of other dictionaries, for equal (`PropertyCompare.ElementsPassForEqual`),
  and inside `a{sv}` the order of the entries of a dictionary matters (`PropertyCompare.NestedOrderMatters`). For all
  other values it does (`PropertyEquality.ZeroMeansSame`), and for none of these (`PropertyEquality.PlainIsNeeded`).
- The next hop `0.0.0.0` or `::` that is printed for a route with a metric and no next hop is dropped again on reading,
  so routes come back exactly.

## Model

| member | source | states |
|---|---|---|
| ScriptServer.AtMostOneWaitRunning | NetworkManager/dispatcher/nm-dispatcher.c:284-348 | In every state the reference server reaches, at most one wait script runs globally; it belongs to the oldest open ordered request, and no no-wait script of that request runs beside it |
| ScriptServer.SpawnedOnce | NetworkManager/dispatcher/nm-dispatcher.c:482-515 | In any run, no script of a request is started, or fails to start, more than once |
| ScriptServer.SpawnedAfterPredecessors | NetworkManager/dispatcher/nm-dispatcher.c:517-531 | In any run, when a wait script is started, all no-wait scripts of its request and all wait scripts before it in the list have ended |
| ScriptServer.SpawnedAfterEarlierReplies | NetworkManager/dispatcher/nm-dispatcher.c:209-233 | In any run, when a request starts a wait script, every earlier request with a wait script has already been answered |
| ScriptServer.AnsweredInOrder | NetworkManager/dispatcher/nm-dispatcher.c:284-348 | In any run, two requests with wait scripts are answered in the order in which they arrived |
| ScriptServer.NothingAfterReply | NetworkManager/dispatcher/nm-dispatcher.c:244-282 | In any run, nothing is logged about a request after its answer, so it is answered at most once |
| ScriptServer.ReplyIsFaithful | NetworkManager/dispatcher/nm-dispatcher.c:244-282 | An answer lists every script of the request once, in list order, with the one terminal result under which that script ended |
| DispatcherState.NoDeadlock | NetworkManager/dispatcher/nm-dispatcher.c:284-348 | Between events: waiting requests imply a current one, the current one is busy, and any unanswered request implies a script that runs, so some event can still happen |
| DispatcherState.OneWaitScript | NetworkManager/dispatcher/nm-dispatcher.c:517-531 | A running wait script is the one before idx in the current request, whose no-wait counter is zero |
| DispatcherState.Conservation | NetworkManager/dispatcher/nm-dispatcher.c:244-282 | The pending counter counts the accepted and unanswered requests of the log; in each, num_scripts_done and num_scripts_nowait are the numbers of ended scripts and of running no-wait scripts that the log shows |
| DispatcherState.FinishedIsCurrent | NetworkManager/dispatcher/nm-dispatcher.c:244-282 | When the last script of a request with wait scripts has ended, that request is the current one |
| DispatcherState.WatchedIsRunning | NetworkManager/dispatcher/nm-dispatcher.c:482-515 | The program watches a child exactly while the log shows its script as started and not ended, so no end of a running script is missed |
| DispatcherState.LaunchOk | NetworkManager/dispatcher/nm-dispatcher.c:482-515 | Starting a script, or failing to, is a step the reference server allows and keeps all counters right |
| DispatcherState.OverOk | NetworkManager/dispatcher/nm-dispatcher.c:350-423 | The end of a script is a step of the reference server and keeps all counters right |
| DispatcherState.ReplyOk | NetworkManager/dispatcher/nm-dispatcher.c:244-282 | Answering a finished request is a step of the reference server, in its turn |
| DispatcherModel.Dispatcher.ScriptDispatch | NetworkManager/dispatcher/nm-dispatcher.c:482-515 | Starts a script that was not dispatched, exactly once; a spawn failure counts as an ended script with its own result |
| DispatcherModel.Dispatcher.DispatchOneScript | NetworkManager/dispatcher/nm-dispatcher.c:517-531 | Waits for the no-wait scripts, else passes scripts until one runs; false exactly when the request is complete |
| DispatcherModel.Dispatcher.CompleteRequest | NetworkManager/dispatcher/nm-dispatcher.c:244-282 | Only a complete request, of which no no-wait script runs, is answered and freed, with all results; the current pointer and the pending counter follow, and the idle timer is armed when nothing is pending |
| DispatcherModel.Dispatcher.NextRequest | NetworkManager/dispatcher/nm-dispatcher.c:209-233 | Takes the given request, or the head of the queue, as the current one, or appends it to the queue |
| DispatcherModel.Dispatcher.RunWaitingRequests | NetworkManager/dispatcher/nm-dispatcher.c:334-347 | The loop over waiting requests ends, with either nothing waiting or a busy current request |
| DispatcherModel.Dispatcher.CompleteScript | NetworkManager/dispatcher/nm-dispatcher.c:284-348 | After any script end the daemon is between events again: nothing startable is left unstarted, nothing complete is left unanswered |
| DispatcherModel.Dispatcher.ScriptWatchCb | NetworkManager/dispatcher/nm-dispatcher.c:350-393 | A child exit adds exactly its end to the log, then only consequences of it, and strictly lowers the number of scripts left |
| DispatcherModel.Dispatcher.ScriptTimeoutCb | NetworkManager/dispatcher/nm-dispatcher.c:395-423 | The same for a timeout, which kills the script |
| DispatcherModel.Dispatcher.MethodCallAction | NetworkManager/dispatcher/nm-dispatcher.c:755-827 | A new request is refused, or accepted and scheduled, and the daemon is between events again |
| DispatcherModel.Dispatcher.DispatchNowait | NetworkManager/dispatcher/nm-dispatcher.c:782-793 | All no-wait scripts of a new request are started or have failed; the count falls short of the list exactly when there is a wait script |
| DispatcherModel.Dispatcher.Schedule | NetworkManager/dispatcher/nm-dispatcher.c:795-826 | A request with wait scripts is queued or run, one without is answered at once if all its scripts failed; the second next_request can never yield a request |
| DispatcherModel.Dispatcher.QuitTimeoutReschedule | NetworkManager/dispatcher/nm-dispatcher.c:186-193 | Arms the idle timer unless the daemon is to persist |
| DispatcherModel.Dispatcher.QuitTimeoutCb | NetworkManager/dispatcher/nm-dispatcher.c:178-184 | When the idle timer fires, nothing is pending, current or waiting |
| DispatcherModel.Dispatcher.MainLoop | NetworkManager/dispatcher/nm-dispatcher.c:284-423 | For any sequence of arrivals, exits, timeouts and spawn failures, the log is a run of the reference server, and each event is answered by its own part of the log: an arrival by one acceptance with its scripts, or a refusal, and consequences; the end of a script that the log shows as running by that end and consequences; anything else by nothing |
| DispatcherModel.Dispatcher.Handle | NetworkManager/dispatcher/nm-dispatcher.c:350-423 | The same for one event |
| DispatcherModel.Dispatcher.AnsweredInTime | NetworkManager/dispatcher/nm-dispatcher.c:284-423 | However many requests arrive meanwhile, a request is answered as soon as as many scripts of it, and of the ordered requests ahead of it if it has wait scripts, have ended as were left in them |
| BoundedWaiting.RunLeft | NetworkManager/dispatcher/nm-dispatcher.c:284-423 | Over any part of a run, the ends of scripts of given requests account exactly for the scripts that are no longer left in them |
| BoundedWaiting.RunningAhead | NetworkManager/dispatcher/nm-dispatcher.c:284-348 | Between events, an unanswered request has a running script ahead of its answer: its own, or one of an ordered request that arrived before it |
| DispatcherModel.Dispatcher.Drain | NetworkManager/dispatcher/nm-dispatcher.c:284-423 | Once arrivals stop, whichever scripts end in whichever way, all requests are answered after at most as many events as there are scripts left |
| KeyCodec.RoundTrip | NetworkManager/libnm-core/nm-keyfile-utils.c:438-581 | For every NUL-free name, decoding its encoded key gives the name back |
| KeyCodec.Injective | NetworkManager/libnm-core/nm-keyfile-utils.c:438-522 | Different names have different keys |
| KeyCodec.EncodeIsKeyName | NetworkManager/libnm-core/nm-keyfile-utils.c:438-522 | Every key is non-empty printable ASCII without = [ ] and without a space at either end |
| KeyCodec.KeptAsIs | NetworkManager/libnm-core/nm-keyfile-utils.c:438-522 | A name is its own key exactly when it is printable ASCII without = [ ], is not empty, has no space at either end, and holds nothing that looks like an escape |
| KeyCodec.EscapeIs | NetworkManager/libnm-core/nm-keyfile-utils.c:495-519 | An escape is a backslash and two upper-case hexadecimal digits |
| KeyCodec.DecodeJoins | NetworkManager/libnm-core/nm-keyfile-utils.c:524-581 | A text that does not start with a hexadecimal digit is decoded on its own |
| KeyCodec.EscapeIsRead | NetworkManager/libnm-core/nm-keyfile-utils.c:552-578 | Escapes with digits of either case are read, an escaped NUL is left as it is |
| KeyCodec.DecodedAsIs | NetworkManager/libnm-core/nm-keyfile-utils.c:524-581 | A key is its own name exactly when it is not the key of the empty name and nothing in it is an escape of something other than NUL |
| KeyCodec.KeyfileKeyEncode | NetworkManager/libnm-core/nm-keyfile-utils.c:438-522 | The two-phase scan (look for something to escape, then copy) computes the one-pass definition |
| KeyCodec.KeyfileKeyDecode | NetworkManager/libnm-core/nm-keyfile-utils.c:524-581 | The two-phase decoder with its lookahead computes the one-pass definition |
| UserData.DictionaryRoundTrip | NetworkManager/libnm-core/nm-keyfile.c:1074-1093 | Any dictionary with NUL-free names, written and read back, is the same dictionary, whatever the order in which the keys are listed |
| UserData.WrittenKeys | NetworkManager/libnm-core/nm-keyfile.c:2264-2288 | The group lists the escaped names in sorted order, each once |
| UserData.WriteHashOfString | NetworkManager/libnm-core/nm-keyfile.c:2238-2289 | Writes all entries in the order of their names |
| UserData.ReadHashOfString | NetworkManager/libnm-core/nm-keyfile.c:1074-1093 | Reads all keys of the group into a dictionary, names decoded |
| KeyFile.KeyGroup.SetString | NetworkManager/libnm-core/nm-keyfile-utils.c:200-213 | A key keeps its first place in the group and takes its latest value |
| ByteStrings.SsidRoundTrip | NetworkManager/libnm-core/nm-keyfile.c:2291-2351 | For every SSID, the empty one included, get_bytes with unescaping returns what ssid_writer wrote |
| ByteStrings.PasswordRawRoundTrip | NetworkManager/libnm-core/nm-keyfile.c:2353-2373 | The same for password_raw_writer |
| ByteStrings.PrintableIsNoList | NetworkManager/libnm-core/nm-keyfile.c:1112-1246 | No printable SSID is taken for a list of integers |
| ByteStrings.SetIntegerListUint8 | NetworkManager/libnm-core/nm-keyfile-utils.c:152-174 | The list writer stays within four characters per byte and prints every byte in decimal with a semicolon |
| ByteStrings.SsidWriter | NetworkManager/libnm-core/nm-keyfile.c:2291-2351 | Writes the SSID as text, semicolons escaped in a buffer of exactly the right size, or as a list of integers |
| ByteStrings.UnescapeSemicolons | NetworkManager/libnm-core/nm-keyfile.c:1098-1110 | Unescaping in place gives the unescaped text, and its length |
| ByteStrings.ParseIntList | NetworkManager/libnm-core/nm-keyfile.c:1142-1232 | The scan of the integer list accepts exactly the list syntax, and its write index stays below length / 2 + 3 |
| Text.CharClasses | NetworkManager/libnm-core/nm-keyfile.c:1142-1152 | The classes of characters by their codes |
| ByteStrings.LayoutIsRead | NetworkManager/libnm-core/nm-keyfile.c:1154-1206 | Numbers of one to three digits up to 255, each with spaces before and behind and a semicolon, and spaces at the end, are read as these numbers |
| ByteStrings.ReadHasLayout | NetworkManager/libnm-core/nm-keyfile.c:1154-1206 | Nothing else is read as a list |
| ByteStrings.GetBytesMeans | NetworkManager/libnm-core/nm-keyfile.c:1112-1246 | A value is a list exactly when it is laid out as one and has entries, else text, with its NUL and its semicolons unescaped as asked for; the quick look for foreign characters changes nothing |
| ByteStrings.UnescapeJoins | NetworkManager/libnm-core/nm-keyfile.c:1098-1110 | A backslash and a semicolon become a semicolon wherever they stand |
| ByteStrings.UnescapeKeeps | NetworkManager/libnm-core/nm-keyfile.c:1098-1110 | Text without such a pair stays as it is |
| ByteStrings.GetBytesFrom | NetworkManager/libnm-core/nm-keyfile.c:1112-1246 | Reads a value as integer list when it is one, as text otherwise |
| KeyIndex.MatchMeans | NetworkManager/libnm-core/nm-keyfile.c:616-661 | A key matches a base name exactly when it is the name itself, or the name and a decimal number up to 2^31 - 1 without leading zeros |
| KeyIndex.MatchInjective | NetworkManager/libnm-core/nm-keyfile.c:616-661 | Per base name, a number belongs to one key only |
| KeyIndex.VisibleSorted | NetworkManager/libnm-core/nm-keyfile.c:601-614 | Shadowing drops every duplicate of the sorted list: what is left is strictly sorted |
| KeyIndex.VisibleSameMembers | NetworkManager/libnm-core/nm-keyfile.c:601-614 | Shadowing drops only duplicates: every entry is still there once |
| KeyIndex.BuildListCreate | NetworkManager/libnm-core/nm-keyfile.c:666-742 | The list holds exactly the entries of the matching keys, in ascending order |
| KeyIndex.OrderOfKeys | NetworkManager/libnm-core/nm-keyfile.c:577-599 | Entries are ordered by their numbers, and of two with one number the singular name comes first |
| KeyIndex.BareNameIsFirst | NetworkManager/libnm-core/nm-keyfile.c:577-661 | A bare name comes before all numbers, and a number counts exactly up to 2147483647 |
| IpText.EntryRoundTrip | NetworkManager/libnm-core/nm-keyfile.c:431-550 | One printed address or route is read back exactly, with its gateway, whatever warnings would do; the stand-in printed for an absent next hop is dropped again |
| IpText.DocumentedFormats | NetworkManager/libnm-core/nm-keyfile.c:407-424 | Every documented format with a prefix is read as what it says, with any of the three delimiters at each place |
| IpText.MissingPrefix | NetworkManager/libnm-core/nm-keyfile.c:425-429 | Without a prefix, or with one above 32 or 128, a value is read like the one with /24 for IPv4, /64 for IPv6 addresses and /128 for IPv6 routes, or not at all if the handler stops at warnings |
| IpText.BareAddress | NetworkManager/libnm-core/nm-keyfile.c:425-429 | The same for a bare address, in literal texts |
| IpText.InvalidParts | NetworkManager/libnm-core/nm-keyfile.c:233-299 | A metric beyond 32 bits, or an address or next hop that is none, gives no entry, with an error if the handler asks for one |
| IpText.AlienCharacter | NetworkManager/libnm-core/nm-keyfile.c:312-354 | A value with a character that is neither of an address nor a delimiter gives no entry |
| IpText.TrailingDelimiter | NetworkManager/libnm-core/nm-keyfile.c:431-550 | One delimiter at the end is let pass, with a note only |
| IpText.Garbage | NetworkManager/libnm-core/nm-keyfile.c:431-550 | Anything behind the last field that there can be makes the value garbage |
| IpText.DeprecatedGateway | NetworkManager/libnm-core/nm-keyfile.c:406-431 | In address/gateway, what is no number is taken for the gateway and not for a prefix: it is read like address/24,gateway or address/64,gateway |
| IpText.MetricForGateway | NetworkManager/libnm-core/nm-keyfile.c:246-260 | IPv6 routes of the form address/plen,metric, left by an old writer, are read as a route with that metric and no next hop |
| IpText.OnlyValidEntries | NetworkManager/libnm-core/nm-keyfile.c:431-550 | Whatever the text, only valid entries come out of it, and an error only if the warning handler asks for one |
| IpText.ReadWriteRead | NetworkManager/libnm-core/nm-keyfile.c:431-550 | What was read from any text and is written again is read as the same entry |
| IpText.FieldsOfLayout | NetworkManager/libnm-core/nm-keyfile.c:312-354 | read_field takes a printed value apart into address, prefix, gateway and metric |
| IpText.ReadFieldInPlace | NetworkManager/libnm-core/nm-keyfile.c:312-354 | Cutting a field off by writing a NUL over the delimiter gives the specified field, position and error, and leaves the rest of the buffer alone |
| IpText.ReadOneInPlace | NetworkManager/libnm-core/nm-keyfile.c:431-550 | Reading a value through its writable copy, all four fields pointing into it, gives the specified outcome |
| IpLists.KeysDiffer | NetworkManager/libnm-core/nm-keyfile.c:1930-2013 | All keys of a written list differ, attribute keys included |
| IpLists.ListKeys | NetworkManager/libnm-core/nm-keyfile.c:744-809 | The keys by name: address, addresses, route and routes with a number are entries under that number, and a route keeps its attributes under its key and _options |
| IpLists.OptionsKeyIsNoItem | NetworkManager/libnm-core/nm-keyfile.c:616-661 | The attribute key of a route is taken for no route |
| IpLists.WrittenHolds | NetworkManager/libnm-core/nm-keyfile.c:1930-2013 | A list written to a group that held none of its keys is held by it, attributes included |
| IpLists.OtherListKeeps | NetworkManager/libnm-core/nm-keyfile.c:2015-2041 | Writing the list of the other kind to the same group leaves a list as it is |
| IpLists.ListRoundTrip | NetworkManager/libnm-core/nm-keyfile.c:744-809 | Any list of up to 2^31 - 1 valid addresses (with gateway) or routes (with next hop, metric, attributes) that a group holds is read back in full and in order, whatever the order of the keys and whatever foreign keys were written before or after |
| IpLists.BothListsRoundTrip | NetworkManager/libnm-core/nm-keyfile.c:2015-2041 | Addresses, gateway and routes of one setting, written to one group in either order, are all read back |
| IpLists.WriteIpValues | NetworkManager/libnm-core/nm-keyfile.c:1930-2013 | Writes the list under numbered keys, the gateway with the first address only |
| IpLists.IpAddressOrRouteParser | NetworkManager/libnm-core/nm-keyfile.c:744-809 | Reads the visible keys in order, stops at the first error without touching the setting, else stores list and gateway |
| Certs.CertRoundTrip | NetworkManager/libnm-core/nm-keyfile.c:1400-1547 | A valid value written by cert_writer_default is read by cert_parser as the same bytes if and only if it is a blob, a PKCS#11 URI, or an absolute path whose length is not 500 |
| Certs.WrittenTexts | NetworkManager/libnm-core/nm-keyfile.c:2377-2447 | Blobs are written in base64 behind data:;base64, URIs as they are, absolute paths bare up to 500 bytes and with file:// beyond |
| Certs.RelativeNameRead | NetworkManager/libnm-core/nm-keyfile.c:1281-1386 | A bare relative name is read as a file if it has a slash, a certificate extension or is there, else as a blob; the file is its last component in the base directory, with one slash between |
| Certs.AbsolutePathRoundTrip | NetworkManager/libnm-core/nm-keyfile.c:2377-2447 | For absolute paths: exactly the length 500 fails, because the writer measures without the NUL and the reader with it |
| Certs.RelativePathIsMadeAbsolute | NetworkManager/libnm-core/nm-keyfile.c:2377-2447 | A relative path never comes back as it was |
| Certs.FiveHundredBytesAreLost | NetworkManager/libnm-core/nm-keyfile.c:2377-2447 | A slash and 499 letters are a valid path, and come back as a blob holding the text of the path |
| Certs.RelativeFileIsLost | NetworkManager/libnm-core/nm-keyfile.c:2377-2447 | The valid relative path ca.pem does not come back |
| Certs.Setting8021x.CertValueToBytes | NetworkManager/libnm-core/nm-setting-8021x.c:314-352 | Builds the prefixed value in a buffer and accepts it only if it has the wanted scheme |
| Certs.Setting8021x.CertWriterDefault | NetworkManager/libnm-core/nm-keyfile.c:2377-2447 | Writes the specified text for a blob, a path or a URI |
| Certs.Setting8021x.CertParser | NetworkManager/libnm-core/nm-keyfile.c:1400-1547 | Stores the specified value, or leaves the setting alone when the text is not acceptable |
| Base64.RoundTrip | NetworkManager/libnm-core/nm-crypto.c:306-313 | Decoding undoes encoding, for all bytes |
| Base64.EncodeIsStrict | NetworkManager/libnm-core/nm-keyfile.c:1462-1490 | Encoded data passes the strict test of the certificate reader |
| Base64.IsStrict | NetworkManager/libnm-core/nm-keyfile.c:1462-1490 | The loop of the certificate reader decides the strict syntax |
| Base64.Alphabet | NetworkManager/libnm-core/nm-crypto.c:306-313 | The alphabet of section 4 of RFC 4648 by its codes |
| Base64.GroupMeans | NetworkManager/libnm-core/nm-crypto.c:306-313 | Four characters are the 24-bit number of three bytes to the base of 64 |
| Base64.EndsMean | NetworkManager/libnm-core/nm-crypto.c:306-313 | One or two bytes at the end are padded with equals signs |
| Base64.JunkIsIgnored | NetworkManager/libnm-core/nm-crypto.c:306-313 | The lenient decoder passes over foreign characters wherever they stand |
| Utf8.TextIsValid | NetworkManager/libnm-core/nm-keyfile.c:1346-1350 | Whatever encodes code points other than NUL and surrogates, as section 3 of RFC 3629 does, is valid |
| Utf8.ValidIsText | NetworkManager/libnm-core/nm-keyfile.c:1346-1350 | Nothing else is valid: valid text is the encoding of some code points |
| Pem.KeyRoundTrip | NetworkManager/libnm-core/nm-crypto.c:965-1055 | For all non-empty key bytes, every salt and every non-empty password, decrypting what the writer printed gives the key bytes back |
| Pem.PasswordIsNeeded | NetworkManager/libnm-core/nm-crypto.c:586-640 | Without a password, or with an empty one, a printed key is not decrypted |
| Pem.ReaderRoundTrip | NetworkManager/libnm-core/nm-crypto.c:586-640 | For RSA and DSA keys, each of the five ciphers, every vector of the right length in whichever digits, and all non-empty data and passwords: a file with this header around the encrypted data is decrypted to the data |
| Pem.PlainKeyIsRead | NetworkManager/libnm-core/nm-crypto.c:586-640 | An unencrypted key file is read without a password, and not with one |
| Pem.WrittenOut | NetworkManager/libnm-core/nm-crypto.c:965-1055 | The written file, tags and headers in literal texts |
| Pem.ParseOfText | NetworkManager/libnm-core/nm-crypto.c:165-320 | The parser takes a printed key apart into exactly its encrypted data, cipher and salt |
| Pem.HexRoundTrip | NetworkManager/libnm-core/nm-crypto.c:452-493 | Reading printed hexadecimal digits gives the bytes back |
| Pem.LinesOfWrap | NetworkManager/libnm-core/nm-crypto.c:1029-1034 | The data wrapped at 64 columns is read back as data lines whose concatenation is the data |
| Pem.ConvertIv | NetworkManager/libnm-core/nm-crypto.c:452-493 | Converts an even number of hexadecimal digits, and nothing else |
| Pem.CryptoRsaKeyEncrypt | NetworkManager/libnm-core/nm-crypto.c:965-1055 | The writer with its list of line buffers prints the specified text; a password that it makes up is handed out and opens the key |
| Pem.CryptoDecryptPrivateKey | NetworkManager/libnm-core/nm-crypto.c:586-640 | The reader computes the specified key |
| PemParser.AcceptedFiles | NetworkManager/libnm-core/nm-crypto.c:217-320 | A file is accepted exactly when its non-empty lines are all data, or Proc-Type, DEK-Info and data in this order, and the data decodes; then IV and cipher are both set or both unset |
| PemParser.CipherNames | NetworkManager/libnm-core/nm-crypto.c:78-99 | A name stands for a cipher if and only if it is its name in upper or lower case |
| PemParser.StripMeans | NetworkManager/libnm-core/nm-crypto.c:132-163 | A line loses the spaces around it and nothing else |
| PemParser.ExtractLine | NetworkManager/libnm-core/nm-crypto.c:132-163 | The line reader always moves on, returns the line up to newline or NUL, and no line is longer than what it consumed |
| PemParser.ReadHeader | NetworkManager/libnm-core/nm-crypto.c:217-304 | The line loop computes the header machine; appended data never outgrows end - start + 1 with its NUL |
| PemParser.ParseOldOpensslKeyFile | NetworkManager/libnm-core/nm-crypto.c:165-320 | The parser as a whole computes the specified result |
| Cipher.PadRoundTrip | NetworkManager/libnm-core/nm-crypto-gnutls.c:134-160 | Unpadding undoes padding for every block size up to 255 |
| Cipher.UnpadMeans | NetworkManager/libnm-core/nm-crypto-gnutls.c:134-160 | Bytes are accepted exactly if they end in one to limit bytes that each tell their number |
| Cipher.CipherTable | NetworkManager/libnm-core/nm-crypto.c:45-53 | The five ciphers: names, key lengths and vector lengths in literals |
| Cipher.KeysByDigest | NetworkManager/libnm-core/nm-crypto.c:903-940 | The keys of all five ciphers as the first bytes of the first two digests |
| Cipher.VectorLength | NetworkManager/libnm-core/nm-crypto-gnutls.c:68-132 | A vector shorter than the cipher needs decrypts nothing |
| Cipher.CipherRoundTrip | NetworkManager/libnm-core/nm-crypto-gnutls.c:163-237 | Decrypting what was encrypted gives the data back, padding included |
| Cipher.Md5Hash | NetworkManager/libnm-core/nm-crypto.c:903-940 | The digest loop fills the buffer with the first bytes of D1 D2 ..., each digest that of the one before, password and salt |
| Cipher.CryptoEncrypt | NetworkManager/libnm-core/nm-crypto-gnutls.c:163-237 | The padding loop writes as many bytes as the padding is long, each holding that length |
| Cipher.CryptoDecrypt | NetworkManager/libnm-core/nm-crypto-gnutls.c:68-161 | The unpadding loop accepts exactly well-padded data |
| Bond.ModeTexts | NetworkManager/libnm-core/nm-utils.c:5021-5088 | Exactly the name and the number of a mode stand for it |
| Bond.AddOptionMeans | NetworkManager/libnm-core/nm-setting-bond.c:326-357 | An invalid option changes nothing; a valid one has its value, enabling miimon leaves no arp_interval and arp_ip_target, enabling arp_interval leaves no miimon, downdelay and updelay, and everything else stays |
| Bond.NeverBoth | NetworkManager/libnm-core/nm-setting-bond.c:326-389 | However options are added and removed, miimon and arp_interval are never both enabled, unless they were from the start |
| Bond.NamesOfTable | NetworkManager/libnm-core/nm-setting-bond.c:56-90 | The names that verify, add_option and options_equal look for are names of the table |
| Bond.WordsMeans | NetworkManager/libnm-core/nm-setting-bond.c:199-230 | The addresses of arp_ip_target are what stands between the commas, empty words included |
| Bond.ValidNumberMeans | NetworkManager/libnm-core/nm-setting-bond.c:169-183 | A number is a non-empty text of digits with a value in the range |
| Bond.NumericOptionsA | NetworkManager/libnm-core/nm-setting-bond.c:56-71 | Which texts are valid for miimon, downdelay, updelay, arp_interval and use_carrier: digits with a value in the range of the option |
| Bond.NumericOptionsB | NetworkManager/libnm-core/nm-setting-bond.c:76-85 | As NumericOptionsA, for resend_igmp, ad_actor_sys_prio, ad_user_port_key, all_slaves_active and min_links |
| Bond.NumericOptionsC | NetworkManager/libnm-core/nm-setting-bond.c:86-90 | As NumericOptionsA, for num_grat_arp, num_unsol_na, packets_per_slave, tlb_dynamic_lb and lp_interval |
| Bond.NamedOptionsA | NetworkManager/libnm-core/nm-setting-bond.c:57-68 | Which texts are valid for mode, arp_validate and primary_reselect: a name of the list, or a number in the range |
| Bond.NamedOptionsB | NetworkManager/libnm-core/nm-setting-bond.c:69-75 | As NamedOptionsA, for fail_over_mac, ad_select and xmit_hash_policy |
| Bond.NamedOptionsC | NetworkManager/libnm-core/nm-setting-bond.c:77-84 | As NamedOptionsA, for lacp_rate and arp_all_targets |
| Bond.AddressOptions | NetworkManager/libnm-core/nm-setting-bond.c:63-81 | Which texts are valid for arp_ip_target (addresses between commas) and ad_actor_system (a MAC address) |
| Bond.InterfaceOptions | NetworkManager/libnm-core/nm-setting-bond.c:66-79 | Which texts are valid for primary and active_slave: names of interfaces |
| Bond.SupportedByMode | NetworkManager/libnm-core/nm-setting-bond.c:501-529 | The options that a mode does not support, mode by mode |
| Bond.DefaultByRow | NetworkManager/libnm-core/nm-setting-bond.c:424-449 | The default of an option is that of its row, of which there is only one |
| Bond.DefaultsA | NetworkManager/libnm-core/nm-setting-bond.c:57-61 | The default values of mode, miimon, downdelay and updelay |
| Bond.DefaultsB | NetworkManager/libnm-core/nm-setting-bond.c:62-66 | The default values of arp_interval, arp_ip_target, arp_validate and primary |
| Bond.DefaultsC | NetworkManager/libnm-core/nm-setting-bond.c:67-73 | The default values of primary_reselect, fail_over_mac, use_carrier and ad_select |
| Bond.DefaultsD | NetworkManager/libnm-core/nm-setting-bond.c:74-79 | The default values of xmit_hash_policy, resend_igmp, lacp_rate and active_slave |
| Bond.DefaultsE | NetworkManager/libnm-core/nm-setting-bond.c:80-84 | The default values of ad_actor_sys_prio, ad_user_port_key, all_slaves_active and arp_all_targets |
| Bond.DefaultsF | NetworkManager/libnm-core/nm-setting-bond.c:85-87 | The default values of min_links, num_grat_arp and num_unsol_na |
| Bond.DefaultsG | NetworkManager/libnm-core/nm-setting-bond.c:88-90 | The default values of packets_per_slave, tlb_dynamic_lb and lp_interval |
| Bond.DefaultActorSystem | NetworkManager/libnm-core/nm-setting-bond.c:433-441 | The default of ad_actor_system depends on the mode, by name or number |
| Bond.VerifyMeans | NetworkManager/libnm-core/nm-setting-bond.c:531-801 | verify fails exactly when an option is invalid, the mode is missing or unknown, or the options are not coherent in it, stated without any order of checks; it is content exactly when also the mode has its name and everything is supported |
| Bond.NormalizedIs | NetworkManager/libnm-core/nm-connection.c:1058-1107 | Short of a fatal error, normalising keeps exactly the supported options, unchanged, and names the mode |
| Bond.NormalizedVerifies | NetworkManager/libnm-core/nm-setting-bond.c:531-801 | After normalising, verify succeeds |
| Bond.NormalizableIfChanged | NetworkManager/libnm-core/nm-setting-bond.c:531-801 | Short of a fatal error, verify asks for normalisation exactly when normalising changes something |
| Bond.NormalizeTwice | NetworkManager/libnm-core/nm-connection.c:1058-1107 | A second pass changes nothing |
| Bond.KnownIsCString | NetworkManager/libnm-core/nm-setting-bond.c:56-90 | No option name of the table holds a NUL |
| Bond.UnsupportedIsKnown | NetworkManager/libnm-core/nm-setting-bond.c:501-529 | Whatever a mode does not support is an option of the table, so it can be removed and the restarting loop ends |
| BondSetting.SettingBond.AddOption | NetworkManager/libnm-core/nm-setting-bond.c:326-357 | A valid option is added, with its side effects on conflicting options; the index stays in agreement |
| BondSetting.SettingBond.RemoveOption | NetworkManager/libnm-core/nm-setting-bond.c:370-389 | A known option is removed; the index stays in agreement |
| BondSetting.SettingBond.GetOption | NetworkManager/libnm-core/nm-setting-bond.c:144-167 | Yields the option at a position of the sorted index, which is built on demand and agrees with the table |
| BondSetting.SettingBond.SetProperty | NetworkManager/libnm-core/nm-setting-bond.c:897-913 | Replaces all options; the index is dropped and so stays in agreement |
| BondSetting.NamedValuesFromStrDict | NetworkManager/libnm-core/nm-setting-bond.c:160-161 | The index lists every option once in the order of the names |
| BondSetting.NormalizeBondMode | NetworkManager/libnm-core/nm-connection.c:1058-1077 | Replaces a number by the name of the mode and reports exactly the changes |
| BondSetting.NormalizeBondOptions | NetworkManager/libnm-core/nm-connection.c:1079-1107 | The restarting loop ends, leaves exactly the supported options and reports exactly the changes |
| BondSetting.NormalizeBond | NetworkManager/libnm-core/nm-connection.c:1629-1630 | Mode and option normalisation one after the other give exactly the normalised options and report exactly the changes; unless verify had found a real error it succeeds from then on, and if it had succeeded already nothing changes |
| Bond.OneMoreOption | NetworkManager/libnm-core/nm-setting-bond.c:805-852 | One more option on one side makes no difference to options_equal exactly if it has its default, or the value under the other name of num_grat_arp and num_unsol_na, or is fail_over_mac or active_slave in an inferrable match |
| Bond.CommonOptions | NetworkManager/libnm-core/nm-setting-bond.c:805-852 | Options that both sides have must have the same value, but for fail_over_mac and active_slave in an inferrable match |
| BondKeyfile.BondRoundTrip | NetworkManager/libnm-core/nm-keyfile.c:1048-1071 | Valid options written in sorted order and replayed on a new bond are equal under options_equal if and only if no ARP option has to give way to an enabled miimon |
| BondKeyfile.ReplayIs | NetworkManager/libnm-core/nm-setting-bond.c:326-357 | What the replay keeps, for all valid options |
| BondKeyfile.ReplayedEqual | NetworkManager/libnm-core/nm-setting-bond.c:805-852 | options_equal holds between the options and their replay exactly when nothing lossy is there, in both comparison modes |
| BondKeyfile.CanonicalRoundTrip | NetworkManager/libnm-core/nm-setting-bond.c:531-801 | For options without fatal error and canonical decimals nothing is lost but an arp_interval of zero beside an enabled miimon |
| BondKeyfile.LeadingZeroLoses | NetworkManager/libnm-core/nm-setting-bond.c:531-801 | Without canonical decimals it fails: miimon=00 passes verify and makes the replay drop the ARP options |
| BondKeyfile.ReadBondOptions | NetworkManager/libnm-core/nm-keyfile.c:1048-1071 | Replays all keys but interface-name in the order of the group |
| Connections.WorstSettingIsMaximum | NetworkManager/libnm-core/nm-connection.c:1443-1476 | The reported severity occurs among the settings and nothing that occurs is worse |
| Connections.FoldStepIsMax | NetworkManager/libnm-core/nm-connection.c:1455-1475 | One turn of the loop keeps the maximum, with an error to show for it, exactly if the new complaint comes with an error or is not worse than what there is |
| Connections.Connection.Verify | NetworkManager/libnm-core/nm-connection.c:1400-1568 | For every order of the settings, the result is the maximum of the settings and the presence checks, or the error of a missing connection setting |
| Connections.PresenceByType | NetworkManager/libnm-core/nm-connection.c:1478-1559 | By connection type and master: which of the three settings must be there and which must not; a missing one is normalizable, a superfluous one an error |
| Connections.ConnectionFirst | NetworkManager/libnm-core/nm-connection.c:1429-1441 | The verification list has all settings, the connection setting first |
| Connections.LayerThree | NetworkManager/libnm-core/nm-connection.c:870-900 | A connection has a layer-3 configuration exactly if it has one of the two address families |
| Connections.Normalized4Means | NetworkManager/libnm-core/nm-connection.c:934-955 | Normalising makes IPv4 settings tidy, leaves tidy ones alone, and touches nothing but what is untidy |
| Connections.Normalized6Means | NetworkManager/libnm-core/nm-connection.c:987-1018 | The same for IPv6 settings and their token |
| Connections.IpSetting.NormalizeIp6 | NetworkManager/libnm-core/nm-connection.c:987-1018 | The IPv6 part in place, reporting exactly the changes |
| Connections.NormalizeIpTwice | NetworkManager/libnm-core/nm-connection.c:902-1041 | Normalising again, even with another preferred method, changes nothing |
| Connections.NormalizedPresence | NetworkManager/libnm-core/nm-connection.c:1478-1559 | After normalising, the presence checks contribute success, so verify reports the worst setting |
| Connections.PresenceNeedsChange | NetworkManager/libnm-core/nm-connection.c:902-1041 | Whenever the presence checks complain, normalising changes something |
| Connections.Connection.NormalizeIpConfig | NetworkManager/libnm-core/nm-connection.c:902-1041 | Computes the specified settings in place and reports a change exactly when there is one |
| Connections.NormalizedByType | NetworkManager/libnm-core/nm-connection.c:870-1041 | After normalising, an ovs-interface has all three settings, a wpan none, a 6lowpan IPv6 and proxy, any other type all three without a master and none with one |
| Connections.AddedMethods | NetworkManager/libnm-core/nm-connection.c:902-1041 | Added settings have method disabled or ignore for wireguard, else auto or the method asked for; settings that were there keep theirs |
| Connections.IpSetting.NormalizeIp4 | NetworkManager/libnm-core/nm-connection.c:934-955 | The IPv4 part: the loop that removes addresses keeps the first one |
| PropertyCompare.Antisymmetric | NetworkManager/libnm-core/nm-property-compare.c:100-136 | On values of one type without dictionaries and boxed values, zero means identical and swapping the values swaps the sign |
| PropertyCompare.Transitive | NetworkManager/libnm-core/nm-property-compare.c:100-136 | On such values the order is transitive |
| PropertyCompare.SmallerMeans | NetworkManager/libnm-core/nm-property-compare.c:13-39 | The direction of the order: numbers by size, texts by strcmp, collections by length and then by the first items that differ |
| StrOrder.LessMeans | NetworkManager/libnm-core/nm-property-compare.c:100-136 | strcmp: one text is a proper start of the other or has the smaller character at the first difference |
| PropertyCompare.ZeroMeansAlike | NetworkManager/libnm-core/nm-property-compare.c:100-136 | What zero means for every value with distinct keys, the blind spots of the program included: a{ss} and a{sv} are read as maps, values inside a{sv} must be identical, boxed values and entries elsewhere are not looked at |
| PropertyEquality.ZeroMeansSame | NetworkManager/libnm-core/nm-property-compare.c:100-136 | For a plain value (nothing boxed outside a{sv}, no entry of another dictionary, no dictionary of two or more entries inside a{sv}) the comparison is zero exactly for the values that are deeply equal with a{ss} and a{sv} read as maps |
| PropertyEquality.PlainIsNeeded | NetworkManager/libnm-core/nm-property-compare.c:100-136 | For every value that is not plain there is one of the same type, with distinct keys, on which the comparison and deep equality disagree |
| PropertyEquality.RigidSame | NetworkManager/libnm-core/nm-property-compare.c:41-71 | Of a value without a dictionary of two or more entries, only the value itself is deeply equal to it |
| PropertyEquality.OrderedSame | NetworkManager/libnm-core/nm-property-compare.c:100-136 | The values that the comparison orders are plain, and deep equality on them is identity |
| PropertyEquality.EqualToItself | NetworkManager/libnm-core/nm-property-compare.c:106-107 | Every value with distinct keys compares equal to itself, so taking one object for equal without looking changes nothing |
| PropertyCompare.ElementsPassForEqual | NetworkManager/libnm-core/nm-property-compare.c:129-133 | Two lists of boxed values, or two dictionaries that are neither a{ss} nor a{sv}, of one type and one length are never told apart |
| PropertyCompare.BoxedPassForEqual | NetworkManager/libnm-core/nm-property-compare.c:129-133 | A tuple with a boxed one passes for a tuple with a boxed two |
| PropertyCompare.NestedOrderMatters | NetworkManager/libnm-core/nm-property-compare.c:41-71 | The order of entries does not matter in a dictionary, but does in a dictionary inside a{sv} |
| PropertyCompare.PropertyCompare | NetworkManager/libnm-core/nm-property-compare.c:100-136 | The dispatch over types, with NULL values, computes the specified sign |
| PropertyCompare.PropertyCompareCollection | NetworkManager/libnm-core/nm-property-compare.c:13-39 | Arrays and tuples: length first, then child by child |
| PropertyCompare.PropertyCompareVardict | NetworkManager/libnm-core/nm-property-compare.c:41-71 | a{sv}: every entry must be found with an identical value |
| PropertyCompare.PropertyCompareStrdict | NetworkManager/libnm-core/nm-property-compare.c:73-98 | a{ss}: the first difference decides |
| Variants.SameDict | NetworkManager/libnm-core/nm-property-compare.c:73-98 | With distinct keys, as many entries, each found in the other, means the same map |
| Filenames.CreatedIsAccepted | NetworkManager/libnm-core/nm-keyfile.c:4045-4089 | For every non-empty name and both modes, the created name has no slash and the filter accepts it in the same mode, in any directory |
| Filenames.AcceptedIsKept | NetworkManager/libnm-core/nm-keyfile.c:3989-4043 | Without extension, a name is kept as it is exactly when it has no slash and the filter accepts it |
| Filenames.FilterMeans | NetworkManager/libnm-core/nm-keyfile.c:3989-4043 | What the filter lets pass, in literals: visible names ending in .nmconnection, or those that end neither in a tilde, nor in .pem or .der in any case, nor like a template of mkstemp |
| Filenames.CreatedMeans | NetworkManager/libnm-core/nm-keyfile.c:4045-4089 | A created name character by character: slashes, a dot in front and a tilde at the end are replaced, an underscore and the extension follow as needed, nothing else changes |
| Filenames.CreateFilename | NetworkManager/libnm-core/nm-keyfile.c:4045-4089 | The escaping loop and the fixes at both ends compute the specified name |

## Left out

- Dispatcher: D-Bus, the main loop, process creation, signals, file checks and directory scanning. Events, spawn
  failures and the sorted list of scripts are parameters.
- Dispatcher: shutdown on SIGTERM or loss of the bus name, which may leave requests unanswered.
- Dispatcher: requests and scripts are entries of a table under a number that is never used again, so freed memory and
  the wrap-around of the request counter are not modelled.
- DispatcherModel.Dispatcher.CompleteRequest: the error texts of the answer.
- DispatcherModel.Dispatcher.MethodCallAction: reading the parameters of the call is reduced to whether they are invalid.
- DispatcherModel.Dispatcher.QuitTimeoutCb: what happens between the firing of the idle timer and the end of the main
  loop is covered only in so far as the state stays consistent.
- GKeyFile itself: setting and getting a string are taken as inverses, and text must be valid UTF-8 there.
- UserData.WriteHashOfString: the group and the filter of VPN secrets.
- VPN data and secrets: the writer escapes the names of secrets, the reader does not unescape them.
- IpText.EntryRoundTrip: attributes of routes are kept as the text of their key, and what the system takes for a valid
  address is a parameter whose canonical texts are fixed points.
- IpLists.WriteIpValues: route attributes are written as the text that their formatting gave.
- IpLists.IpAddressOrRouteParser: route attributes are read as text, without looking at the attributes in it; routing
  rules, the third kind of numbered keys, are not read.
- Certs.CertRoundTrip: the existence of files and the working directory are parameters.
- Other certificate properties, passwords and private keys as certificates: they differ in the name of the key only.
- Cipher.CipherRoundTrip: MD5 and the block ciphers are parameters; that decrypting undoes encrypting is assumed of them.
- Pem.CryptoRsaKeyEncrypt: the random salt and password are parameters; printing of an unencrypted key does not exist.
- X.509, PKCS#8 and PKCS#12, and the NSS variant of the cryptographic functions: calls into libraries.
- Bond.NormalizedVerifies: whether addresses and interface names are valid, and the rest of the connection that verify
  looks at, are parameters.
- Connections.Connection.Verify: the verify functions of the settings are parameters, and each must set an error with
  its complaint (`Connections.Reported`), as those of the library do.
- Connections.NormalizeIpTwice: the canonical form of an IPv6 token is a parameter that must be a fixed point.
- Connections.Connection.NormalizeIpConfig: other fields of the IP settings, which it does not touch.
- Other steps of the normalisation of a connection: each sets one property of one setting.
- PropertyCompare.PropertyCompare: doubles; children of two values that are one and the same object, which the program
  takes for equal without looking (see `PropertyEquality.EqualToItself`); results other than their sign.
- Team, WireGuard, traffic control and other settings with tables of their own.
