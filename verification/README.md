# Simple network scanner — a verified model of its core

`simple_network_scanner.py` is a command-line tool. It pings every host of an
IPv4 network, then tries a TCP connect on a list of ports of every host that
answered, and prints the open ports with a service name. This project models
the logic around that I/O and proves what it promises:

- **the `-p` port specification** (`main`, lines 194-206).
  - A string containing `-` is an inclusive `start-end` range.
  - Any other string is a comma-separated list.
  - Any `ValueError` ends the program with status 1.
  - The tokens are read by Python's `int()`, which is modelled too: surrounding
    whitespace, an optional sign, and `_` between digits (module `Text`).
- **the service table** (lines 19-39), and the lookup with the default
  `"Unknown"` (line 65), in module `Services`.
- **the probes** `ping_host` and `scan_port` (lines 41-69). Each turns what the
  operating system reported into a yes/no answer. Any exception is a negative
  answer.
- **the gathering loops** of `discover_hosts`, `scan_host` and `scan_network`
  (lines 79-149). They are methods of the class
  `Scanner.SimpleNetworkScanner`, proved against specification functions
  built from one order-preserving "filter and map" (`Seqs.Collect`).
  - The thread pools hand their futures back in submission order, so each
    result is a deterministic, in-order filter of the inputs.
  - The `results` dict is an insertion-ordered dictionary value (`Dicts.Dict`).
- **the control flow of `main`** (lines 193-217) as `Scanner.Run`.
  - A bad port specification ends the program before any probing, even with
    `--host-only`.
  - Otherwise the program either only discovers hosts or runs the full scan.

The ping command and the socket connect are oracles, passed in as functions:

- a `Pinger` says how the ping process ended: an exit status, or an exception;
- a `Connector` says what `connect_ex` returned, or that the socket calls raised.

The addresses of the network arrive as a sequence, in the order the network
enumerates them.

For the range form, `start > end` is not an error: `range(start, end + 1)` is
empty, so `-p 80-79` scans no port and exits normally
(`PortSpec.ExampleDescendingRange`).

Files: `wrappers.dfy`, `seqs.dfy`, `dicts.dfy`, `text.dfy`, `port_spec.dfy`,
`services.dfy`, `scanner.dfy`.

## Model

| member | source | states |
|---|---|---|
| Seqs.Collect | simple_network_scanner.py:97-101 | the in-order "filter and map" the gathering loops compute; never longer than its input (its meaning is pinned down by the lemmas below) |
| Seqs.CollectSelects | simple_network_scanner.py:97-101 | the gathered list is exactly the accepted elements, in input order: its positions increase, each one is accepted, and every accepted position is used |
| Seqs.SelectedAtUnique | simple_network_scanner.py:97-101 | any list that selects the accepted elements in order is the gathered list, so the in-order filter is unique |
| Seqs.CollectMember | simple_network_scanner.py:120-123 | a value is gathered if and only if some input element is mapped to it |
| Seqs.CollectNoneAccepted | simple_network_scanner.py:120-123 | when no element is accepted, nothing is gathered |
| Seqs.FilterIsSubsequence | simple_network_scanner.py:120-123 | a pure filter yields a subsequence of its input, without duplicates when the input has none |
| Seqs.Range | simple_network_scanner.py:200 | `range(start, stop)` holds `stop - start` integers (none if `start >= stop`), the k-th being `start + k` |
| Dicts.Dict.Put | simple_network_scanner.py:146 | `d[k] = v` keeps the dictionary well formed, maps `k` to `v`, leaves other keys alone, keeps an existing key in place and appends a new one |
| Dicts.PutNewKey | simple_network_scanner.py:146 | storing under a new key appends it to the key order and adds exactly that entry |
| Dicts.Empty | simple_network_scanner.py:143 | `{}` is well formed and has no keys |
| Text.Split | simple_network_scanner.py:199 | `str.split(sep)` yields at least one piece, and no piece holds the separator |
| Text.SplitJoin | simple_network_scanner.py:199 | joining the pieces with the separator gives the original string back |
| Text.JoinSplit | simple_network_scanner.py:203 | splitting a join of separator-free pieces gives those pieces back |
| Text.StripDecomposes | simple_network_scanner.py:199 | `int()`'s own whitespace skipping (there is no `strip()` call in the source) removes only whitespace, only at the two ends, and leaves a token with non-space ends |
| Text.StripPadded | simple_network_scanner.py:199 | the whitespace `int()` skips around a token whose ends are not whitespace is exactly the padding |
| Text.ParseInt | simple_network_scanner.py:199 | definition of `int(token)`: skip the surrounding whitespace, then an optional sign and a digit run; anything else is a `ValueError` |
| Text.ExampleFileSeparatorRejected | simple_network_scanner.py:203 | a token starting with U+001C is a `ValueError`: `int()` does not skip the ASCII separators that `str.isspace()` accepts |
| Text.ParseSigned | simple_network_scanner.py:199 | a negative value needs a leading minus; an empty token is not an integer |
| Text.ParseIntNonNegative | simple_network_scanner.py:203 | a token without a minus sign never reads as a negative integer |
| Text.ParseIntRejectsBlank | simple_network_scanner.py:203 | an empty or all-whitespace token is a `ValueError` |
| Text.DecimalRoundTrip | simple_network_scanner.py:199 | `int()` reads back `str(n)`, with or without sign and surrounding whitespace |
| PortSpec.ParseList | simple_network_scanner.py:203 | the list form succeeds if and only if every token is an integer; it then has one port per token, in token order, each the token's value |
| PortSpec.ParseRange | simple_network_scanner.py:199-200 | definition of the range form: exactly two pieces, both integers, give `range(start, end + 1)`; anything else is an invalid specification |
| PortSpec.ParsePorts | simple_network_scanner.py:197-203 | definition of the parser: a dash selects the range form, otherwise the list form |
| PortSpec.ParsePortArgument | simple_network_scanner.py:194-196 | definition of `if args.ports:`: an absent or empty argument leaves the ports unset; properties in `Scanner.PortArgumentSelectsPorts` |
| PortSpec.ParsePortsListForm | simple_network_scanner.py:201-203 | without a dash, the result is `int(tok)` for each comma-separated token, same count and order, duplicates kept |
| PortSpec.ParsePortsRangeForm | simple_network_scanner.py:197-200 | with a dash, parsing succeeds if and only if there are exactly two integer pieces; the result is the ascending `start..end` of length `max(0, end - start + 1)` |
| PortSpec.ParsePortsNonNegative | simple_network_scanner.py:197-203 | no successfully parsed port is negative |
| PortSpec.ParsePortsRejectsEmptyToken | simple_network_scanner.py:203-206 | an empty list token (`"80,"`) is an invalid specification |
| PortSpec.ParsePortsRejectsEmptyBound | simple_network_scanner.py:199-206 | an empty range bound (`"-80"`, `"80-"`) is an invalid specification |
| PortSpec.ListRoundTrip | simple_network_scanner.py:203 | printing ports comma-separated and parsing them gives the same ports |
| PortSpec.RangeRoundTrip | simple_network_scanner.py:199-200 | parsing `start-end` gives every port from start to end inclusive |
| PortSpec.ExampleDuplicatesKept | simple_network_scanner.py:203 | `"80,80"` gives `[80, 80]` |
| PortSpec.ExampleList | simple_network_scanner.py:203 | `"80,443,8080"` gives `[80, 443, 8080]` |
| PortSpec.ExamplePair | simple_network_scanner.py:194-203 | `-p 80,22` gives `[80, 22]` |
| PortSpec.ExampleNoBoundsCheck | simple_network_scanner.py:203 | port 0 and port 70000 are accepted |
| PortSpec.ExampleRange | simple_network_scanner.py:199-200 | `"20-22"` gives `[20, 21, 22]` |
| PortSpec.ExampleDescendingRange | simple_network_scanner.py:199-200 | `"80-79"` gives no port and no error |
| PortSpec.ExampleThreePieces | simple_network_scanner.py:199 | `"1-2-3"` is rejected |
| PortSpec.ExampleTrailingComma | simple_network_scanner.py:203 | `"80,"` is rejected |
| PortSpec.ExampleMissingStart | simple_network_scanner.py:199 | `"-80"` is rejected |
| PortSpec.ExampleMissingEnd | simple_network_scanner.py:199 | `"80-"` is rejected |
| Services.Get | simple_network_scanner.py:65 | definition of `dict.get(key, default)` on an insertion-ordered table |
| Services.ServiceName | simple_network_scanner.py:65 | definition of the lookup `common_ports.get(port, "Unknown")`; properties in the lemmas below |
| Services.DefaultPorts | simple_network_scanner.py:82 | definition of `list(common_ports.keys())`; properties in `Services.DefaultPortsShape` |
| Services.GetListed | simple_network_scanner.py:65 | with distinct keys, `get` of a listed key returns its listed value |
| Services.GetUnlisted | simple_network_scanner.py:65 | `get` of a key that is not listed returns the default |
| Services.AscendingKeysDistinct | simple_network_scanner.py:19-39 | keys that ascend from entry to entry are distinct |
| Services.CommonPortsShape | simple_network_scanner.py:19-39 | the table has 19 entries with ascending keys, and no name is "Unknown" |
| Services.DefaultPortsShape | simple_network_scanner.py:81-82 | the default ports are the 19 distinct table keys in table order |
| Services.ServiceNameListed | simple_network_scanner.py:19-39 | a port in the table is reported under its listed name |
| Services.ServiceNameUnlisted | simple_network_scanner.py:65 | every other port is reported as "Unknown" |
| Services.ServiceNameKnownIff | simple_network_scanner.py:65 | a port is reported as "Unknown" if and only if it is not in the table |
| Services.BetweenNeighboursUnlisted | simple_network_scanner.py:19-39 | a key strictly between two neighbouring keys is not in the table |
| Services.UnlistedBetweenProxyPorts | simple_network_scanner.py:37-38 | every port strictly between 8080 and 8443 is "Unknown" |
| Services.ExampleListedLookups | simple_network_scanner.py:21-38 | 80 is HTTP, 22 is SSH, 8443 is HTTPS-Alt |
| Scanner.PortsOrDefault | simple_network_scanner.py:81-82 | definition: the given ports, or the table's ports when none are given |
| Scanner.AliveHosts | simple_network_scanner.py:117-123 | definition of the alive hosts as the in-order filter of the hosts by `PingHost`; properties in `Scanner.AliveHostsSpec` |
| Scanner.OpenPortsOf | simple_network_scanner.py:95-101 | definition of a host's open ports as the in-order `ScanPort` results over the given or default ports; properties in `Scanner.OpenPortsSpec` |
| Scanner.PortArgumentSelectsPorts | simple_network_scanner.py:194-203 | an absent or empty `-p` scans the 19 table ports; a given one fails exactly when its parse fails and otherwise scans the parsed ports |
| Scanner.PingHost | simple_network_scanner.py:41-54 | a host is alive if and only if ping exited with status 0 |
| Scanner.ScanPort | simple_network_scanner.py:56-69 | a port is open if and only if `connect_ex` returned 0; it is then reported with its own number and the table's name for it |
| Scanner.ProbeFailuresAreNegative | simple_network_scanner.py:52-69 | a raised exception or a non-zero status is a negative finding, never an error |
| Scanner.AliveHostsSpec | simple_network_scanner.py:117-123 | alive hosts are exactly the enumerated hosts that answer, kept in enumeration order, without duplicates |
| Scanner.OpenPortsSpec | simple_network_scanner.py:91-101 | open ports never outnumber the ports asked for; a pair is reported if and only if its port was asked for, is open and carries the table's name; no ports gives no pairs |
| Scanner.OpenPortsInOrder | simple_network_scanner.py:95-101 | open ports are reported in the order they were asked for |
| Scanner.DefaultPortsUsed | simple_network_scanner.py:81-82 | without a port list, the 19 table ports are probed and every open one has a known name |
| Scanner.ReportedHostsEnumerated | simple_network_scanner.py:143-146 | every reported host was enumerated and answered, appears once, and reported hosts never outnumber enumerated ones |
| Scanner.NoAnswerNoResults | simple_network_scanner.py:138-140 | when no host answers, the scan returns early without results |
| Scanner.ExampleHttpOpenSshClosed | simple_network_scanner.py:94-101 | ports 80 and 22 with 80 open and 22 refused report only `(80, "HTTP")` |
| Scanner.SimpleNetworkScanner.DiscoverHosts | simple_network_scanner.py:109-127 | the loop builds the alive hosts: those that answer, in order, as a subsequence of the hosts, distinct when the hosts are |
| Scanner.SimpleNetworkScanner.ScanHost | simple_network_scanner.py:79-107 | the loop builds the open ports of the given or default ports; a pair is reported if and only if its port was asked for, is open and is named from the table |
| Scanner.SimpleNetworkScanner.ScanNetwork | simple_network_scanner.py:129-149 | the scan returns early exactly when no host is alive; otherwise `results` has one entry per alive host, in discovery order, holding that host's open ports |
| Scanner.Run | simple_network_scanner.py:193-217 | an invalid `-p` exits with status 1 before any probing, and every other run ends with status 0; otherwise `--host-only` gives the alive hosts and a full scan gives the network report for the parsed ports |

## Left out

- Ping and connect are oracles. The `ping` command line, its timeout grace of one second and the platform switch (lines 45-50) are not modelled; the oracle sees only the address and the timeout.
- Socket creation, `settimeout` and `close` are folded into the connect oracle. A port that Python refuses outright (OverflowError for ports above 65535 or below 0) is whatever the oracle says, normally `ConnectRaised`, which `scan_port` turns into "closed".
- `ThreadPoolExecutor` is left out: the loops run sequentially. The results match, because futures are read back in submission order (lines 97 and 120). Each probe is assumed to give the same answer for the same arguments, so duplicate ports and hosts are scanned alike.
- CIDR parsing and host enumeration (`ipaddress.IPv4Network(...).hosts()`, lines 114, 118 and 188-191) are left out. The hosts are an input sequence. `ScanNetwork` and `Run` require it to be free of duplicates, as the enumeration of a network is. The "Invalid network" exit is not modelled.
- `get_hostname`, `print_summary`, every `print`, the timestamps and argparse (lines 71-77, 84-89, 102-105, 111, 124-126, 131-133, 139, 151-171, 174-184) only produce output or read the command line. They are left out. The `-t` and `--host-only` values are plain parameters.
- The timeout is a `real` carried to the oracles. It takes no part in the logic.
- Text.ParseSigned: `int()` is modelled for ASCII digits only. Other Unicode decimal digits, and the limit on the number of digits Python converts, are not modelled.
- PortSpec.ParsePortsRangeForm: list-length and memory limits are not modelled. `list(range(start, end + 1))` raises OverflowError for a range longer than `sys.maxsize`, and MemoryError for much shorter ones. Neither is a ValueError, so the program ends with a traceback, not "Invalid port specification". `PortSpec.RangeRoundTrip` and `Scanner.Run` treat every such range as a successful parse.
- Text.Split: only single-character separators are modelled, which is all the parser uses.
- Scanner.SimpleNetworkScanner.ScanNetwork: returns the `results` dict rather than printing it. The source returns `None` and hands `results` to `print_summary`.
