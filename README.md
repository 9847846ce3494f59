# systemd socket activation, in Dafny

A model of the socket-activation receiver in julienschmidt/systemd's `socket.go`.

A service manager opens the listening sockets itself. It starts the service with those sockets as descriptors 3, 4, 5, … and sets three environment variables:

- `LISTEN_PID`: the process the sockets are meant for.
- `LISTEN_FDS`: how many sockets there are.
- `LISTEN_FDNAMES`: optional, a `:`-separated list of names.

The library decodes these variables and hands the descriptors back as `Socket` values. It also sets the close-on-exec flag on each descriptor.

The project has three files:

- `wrappers.dfy`: the `Option` datatype used for Go's `(value, error)` pairs.
- `gostrings.dfy` (module `GoStrings`): the Go standard-library routines the decoder calls.
  - `strconv.Atoi` and `strconv.Itoa`.
  - `strings.IndexByte`, `strings.Count`, `strings.SplitN` and `strings.Join`, for a one-character separator.
  - `Atoi` and `Itoa` are plain functions over the recursive helpers `DigitsValue` and `NatToDecimal`; `IndexByte`, `Count`, `SplitN` and `Join` are recursive functions. Lemmas prove what the Go documentation promises about it. For `SplitN`:
    - it returns the right number of fields;
    - the fields join back to the input;
    - no field but the last holds the separator;
    - these shape facts determine the result uniquely.
- `systemd.dfy` (module `Systemd`): the decoder and the descriptor walker.
  - `ParseEnv` is `parseEnv`.
  - `ParseNames` and `DecodeNames` are `parseNames`.
  - `Socket` with `Fd()` and `Name()` models the Go `Socket` type.
  - `NewSocket` is `newSocket`.
  - `Listen` and `ListenWithNames` are the two entry points.
  - The descriptor table's close-on-exec flags are the field of a `Descriptors` object. `syscall.CloseOnExec` updates that field, and `NewSocket`, `Listen` and `ListenWithNames` modify it.
  - `Listen` and `ListenWithNames` fill a freshly allocated array of sockets in a `while` loop, as the Go code fills its slice.

The model does no I/O:

- The process environment is a `map<string, string>`. An absent key reads as "", as `os.Getenv` does.
- The caller's process id (`os.Getpid()`) is a parameter.
- Error values are a datatype. `Error.Message()` gives the exact texts of the `errors.New` calls.

Behaviour worth knowing:

- **`Listen` returns `parseEnv`'s error.** When the count is below 1 (`socket.go:137-140`), `Listen` returns the error `parseEnv` produced, with no sockets. The doc comment at `socket.go:131-135` mentions only the empty slice. The model follows the code.
- **`parseNames` is called only with `n >= 1`.** Its only caller reaches it after the `n < 1` return (`socket.go:154-159`), so `ParseNames` and `DecodeNames` require `n >= 1`. For other counts the Go function still behaves: an empty `LISTEN_FDNAMES` gives "socket names not set" for every n (`socket.go:118-119`), and for n < 0 `strings.SplitN` returns every field, so the length test fails and the mismatch error comes back before `names[n-1]` is evaluated. Only n == 0 with a non-empty value panics: `SplitN` returns no fields, the length test passes, and `names[-1]` is indexed.
- **A last field that starts with `:` is accepted.** The test is `strings.IndexByte(names[n-1], ':') > 0` (`socket.go:123`), so a last field whose first character is `:` passes. With more names than `n`, the surplus is rejected unless the n-th name is empty. In that case the remaining names are merged, `:`-joined, into the last name, and nothing is reported (`DecodeNamesTooMany`, `DecodeNamesQuirkExample`). The model keeps this behaviour exactly as the code has it.
- **Two rejected name lists.**
  - An empty `LISTEN_FDNAMES` is "not set". So the one-name list `[""]` cannot be sent (`DecodeNamesSingleEmpty`).
  - A mismatch reports `Count(raw, ':') + 1` as the number of names received.

## Model

| member | source | states |
|---|---|---|
| Systemd.ParseEnv | socket.go:81-114 | Each error holds exactly when its check is the first to fail, in the code's order: `LISTEN_PID` empty or unset, not an integer, not the caller's pid, then `LISTEN_FDS` not an integer. Every error comes with count 0. Success holds exactly when both parse and the pid matches, and then the count is `LISTEN_FDS`'s value. |
| Systemd.ParseEnvRoundTrip | socket.go:93-113 | An environment holding `Itoa(pid)` and `Itoa(count)` decodes to `count` with no error. |
| Systemd.ParseNames | socket.go:116-120 | `LISTEN_FDNAMES` is read from the environment: the "socket names not set" error holds exactly when the variable is unset or empty, and an unset variable always gives that error with no names. |
| Systemd.DecodeNames | socket.go:116-129 | An error leaves no names, and success gives exactly n names. The "not set" error holds exactly when the raw value is empty. Every other error is the count mismatch, reporting n and the number of `:`-separated segments. |
| Systemd.IndexByteNotPositive | socket.go:123 | The last-field test `IndexByte(field, ':') <= 0` holds exactly when the field has no `:`, or has one at position 0. |
| Systemd.DecodeNamesAccepts | socket.go:117-128 | The decoder returns `names` without error if and only if the raw value is non-empty and is `names` joined by `:`, there are n names, every name but the last is free of `:`, and the last name passes the last-field test. |
| Systemd.DecodeNamesRoundTrip | socket.go:116-129 | Any non-empty list of `:`-free names other than `[""]`, joined and decoded with n = its length, comes back unchanged with no error. |
| Systemd.DecodeNamesSingleEmpty | socket.go:117-120 | The list `[""]` joins to "", which decodes as "socket names not set". |
| Systemd.DecodeNamesTooFew | socket.go:122-127 | Fewer `:`-free names than n are rejected with the mismatch error, reporting n and their number. |
| Systemd.DecodeNamesTooMany | socket.go:122-127 | With more `:`-free names than n: if the n-th name is non-empty, the list is rejected with the mismatch error, reporting n and their number. If it is empty, the decoder succeeds with the first n-1 names followed by the rest, `:`-joined. |
| Systemd.DecodeNamesTooFewExample | socket_test.go:254-257 | "fd3" with 2 expected gives the mismatch error (expected 2, got 1). |
| Systemd.DecodeNamesTooManyExample | socket_test.go:259-262 | "fd3:fd4:fd5" with 2 expected gives the mismatch error (expected 2, got 3). |
| Systemd.DecodeNamesEmptyNamesExample | socket_test.go:195-197 | Two empty names travel as ":" and decode back to `["", ""]`. |
| Systemd.DecodeNamesQuirkExample | socket.go:123 | "a::b" decodes with n = 2 to `["a", ":b"]`, and ":b" with n = 1 to `[":b"]`, both without error. |
| Systemd.ProcFdNameInjective | socket.go:145 | Distinct descriptors get distinct `/proc/self/fd/N` names. |
| Systemd.BlockRange | socket.go:143-146 | The descriptors the walker flags for count n are exactly 3 ≤ fd < 3 + n. |
| Systemd.Descriptors.CloseOnExec | socket.go:27-28 | The flag is set on `fd`, and every other descriptor's flag stays as it was. |
| Systemd.NewSocket | socket.go:26-43 | The flag is set on `fd`, and the `Fd()` and `Name()` accessors of the socket it returns give back exactly the descriptor and the name it was created with. |
| Systemd.Listen | socket.go:136-148 | The error is `parseEnv`'s. For a count below 1: no sockets and no flag changed. Otherwise: n sockets, socket i is descriptor 3+i named `/proc/self/fd/` followed by 3+i in decimal, and exactly descriptors 3 … 3+n-1 gain the close-on-exec flag. |
| Systemd.ListenWithNames | socket.go:153-170 | For a count below 1: `parseEnv`'s error, no sockets, no flag changed. If `parseNames` fails: its error, no sockets, no flag changed. Otherwise: no error, socket i is descriptor 3+i carrying the i-th decoded name, and exactly descriptors 3 … 3+n-1 gain the flag. |
| Systemd.HandshakeRoundTrip | socket.go:81-129 | The environment a service manager sets for a pid and a list of `:`-free names (other than `[""]`) decodes to that pid's count and, through the `LISTEN_FDNAMES` read of `ParseNames`, to exactly those names. |
| Systemd.CheckListenWithNames | socket_test.go:162-189 | In that environment, `ListenWithNames` succeeds with one socket per name. Socket i is descriptor 3+i named `names[i]`, and exactly those descriptors are flagged close-on-exec. |
| GoStrings.IndexByteFirst | socket.go:123 | `IndexByte` is -1 exactly when the character is absent. Otherwise it points at the character's first occurrence. |
| GoStrings.CountOccurrences | socket.go:126 | `Count` is the number of occurrences: the character's multiplicity in the string. |
| GoStrings.SplitNLength | socket.go:122-123 | `SplitN(s, sep, n)` has `min(n, Count(s, sep) + 1)` fields. |
| GoStrings.SplitNShape | socket.go:122 | The result of `SplitN(s, sep, n)` has 1 to n fields and joins back to `s`. No field but the last holds `sep`, and the last holds none either when there are fewer than n fields. |
| GoStrings.SplitNUnique | socket.go:122 | Any field list with that shape is the result of `SplitN`. |
| GoStrings.SplitJoin | socket.go:122 | Splitting the join of k ≥ 1 separator-free fields into at most n ≥ k fields gives the fields back. |
| GoStrings.JoinCount | socket.go:126 | Joining k separator-free fields yields k-1 separators. |
| GoStrings.AtoiItoa | socket.go:98-112 | `Atoi(Itoa(x)) == Some(x)` for every integer x. |
| GoStrings.AtoiEmpty | socket.go:109-112 | The empty string, which is what an unset `LISTEN_FDS` reads as, is not a number. |

## Left out

- `Socket.File`, `Close`, `Listener`, `Conn` and `PacketConn` (`socket.go:45-79`) are thin wrappers around `os` and `net` calls on an open file. Descriptors here are numbers with a close-on-exec flag, and nothing is opened, read or written. For the same reason the model does not capture that `os.NewFile` accepts a descriptor that was never opened.
- `booted.go` (`Booted`) is not part of this model.
- The commented-out unsetting of the environment (`socket.go:85-91`) is not code.
- Systemd.ParseEnv: does not model `strconv.Atoi`'s range error. Integers are unbounded, so a `LISTEN_PID` or `LISTEN_FDS` beyond Go's `int` range (64 bits, or 32 bits on 32-bit platforms) parses here. Go would report the matching error, and for `LISTEN_FDS` it would also return the clamped value rather than 0.
- `Fd()` is a `nat` rather than Go's `uintptr`. The model has no conversion or wrap-around, which cannot arise for descriptors 3, 4, …
- The memory exhaustion that `make([]Socket, n)` can cause for a huge count is not modelled.
- `SplitN`, `IndexByte` and `Count` are modelled for a single-character separator on `seq<char>`. That is the only way the code uses them. Go works on UTF-8 bytes, and for the ASCII `:` splitting bytes and splitting characters agree.
- `Error.Message()` reproduces the error texts, but no property is stated about them. Only the error kinds and the two counts in the mismatch error are specified.
- Concurrency is not modelled: the environment and the descriptor table are not shared with other goroutines.
