/**
 * The socket-activation handshake of systemd's sd_listen_fds(3) and
 * sd_listen_fds_with_names(3) convention: the service manager opens the
 * sockets, passes them as descriptors 3, 4, ... across exec, and describes
 * them in LISTEN_PID, LISTEN_FDS and LISTEN_FDNAMES. The environment is an
 * injected map (an absent key reads as ""), the process id is a parameter,
 * and the descriptor table's close-on-exec flags are an object the walker
 * updates.
 */
module Systemd {
  import opened Wrappers
  import opened GoStrings

  /** The first descriptor the service manager passes, right after stdin, stdout and stderr. */
  const FdStart: nat := 3

  const PidVar := "LISTEN_PID"
  const FdsVar := "LISTEN_FDS"
  const FdNamesVar := "LISTEN_FDNAMES"

  /** Separator between the names in LISTEN_FDNAMES. */
  const NameSep := ':'

  /** The process environment, read only. */
  type Env = map<string, string>

  /** os.Getenv: an unset variable reads as the empty string. */
  function Getenv(env: Env, key: string): string
  {
    if key in env then env[key] else ""
  }

  datatype Error =
    | ListenEnvNotSet
    | InvalidListenPid
    | ListenPidMismatch
    | InvalidFdCount
    | NamesNotSet
    | NameCountMismatch(expected: int, got: int)
  {
    /** The error text the decoder reports. */
    function Message(): string
    {
      match this
      case ListenEnvNotSet => "listen environment not set"
      case InvalidListenPid => "invalid listen PID"
      case ListenPidMismatch => "listen PID does not match"
      case InvalidFdCount => "invalid number of file descriptors"
      case NamesNotSet => "socket names not set"
      case NameCountMismatch(expected, got) =>
        "mismatch between number of socket and socket names: expected " + Itoa(expected) +
        ", got " + Itoa(got)
    }
  }

  // ---------------------------------------------------------------------
  // Environment decoder
  // ---------------------------------------------------------------------

  /** The (n, err) pair parseEnv returns. */
  datatype EnvCount = EnvCount(n: int, err: Option<Error>)

  /**
   * parseEnv: LISTEN_PID must be set, be an integer and equal the caller's
   * process id, and LISTEN_FDS must be an integer, checked in that order;
   * the first failing check decides the error and the count is then 0.
   */
  function ParseEnv(env: Env, pid: int): (r: EnvCount)
    ensures r.err.Some? ==> r.n == 0
    ensures r.err == Some(ListenEnvNotSet) <==> Getenv(env, PidVar) == ""
    ensures r.err == Some(InvalidListenPid) <==> Getenv(env, PidVar) != "" && Atoi(Getenv(env, PidVar)).None?
    ensures r.err == Some(ListenPidMismatch) <==> Atoi(Getenv(env, PidVar)).Some? && Atoi(Getenv(env, PidVar)).value != pid
    ensures r.err == Some(InvalidFdCount) <==> Atoi(Getenv(env, PidVar)) == Some(pid) && Atoi(Getenv(env, FdsVar)).None?
    ensures r.err == None <==> Atoi(Getenv(env, PidVar)) == Some(pid) && Atoi(Getenv(env, FdsVar)).Some?
    ensures r.err == None ==> Atoi(Getenv(env, FdsVar)) == Some(r.n)
  {
    var envPid := Getenv(env, PidVar);
    var envFds := Getenv(env, FdsVar);
    if |envPid| == 0 then EnvCount(0, Some(ListenEnvNotSet))
    else
      match Atoi(envPid)
      case None => EnvCount(0, Some(InvalidListenPid))
      case Some(p) =>
        if p != pid then EnvCount(0, Some(ListenPidMismatch))
        else
          match Atoi(envFds)
          case None => EnvCount(0, Some(InvalidFdCount))
          case Some(n) => EnvCount(n, None)
  }

  /** The service manager's encoding of its own pid and count decodes to that count. */
  lemma ParseEnvRoundTrip(env: Env, pid: int, count: int)
    requires Getenv(env, PidVar) == Itoa(pid) && Getenv(env, FdsVar) == Itoa(count)
    ensures ParseEnv(env, pid) == EnvCount(count, None)
  {
    AtoiItoa(pid);
    AtoiItoa(count);
  }

  /** The (names, err) pair parseNames returns. */
  datatype NamesResult = NamesResult(names: seq<string>, err: Option<Error>)

  /** parseNames(n): read LISTEN_FDNAMES and decode it (an unset variable reads as ""). */
  function ParseNames(env: Env, n: int): (r: NamesResult)
    requires n >= 1
    ensures r.err == Some(NamesNotSet) <==> FdNamesVar !in env || env[FdNamesVar] == ""
    ensures FdNamesVar !in env ==> r == NamesResult([], Some(NamesNotSet))
  {
    DecodeNames(Getenv(env, FdNamesVar), n)
  }

  /**
   * The decoding parseNames(n) applies to the raw LISTEN_FDNAMES value,
   * for n >= 1 (the only counts it is called with; it indexes names[n-1]):
   * an empty value is "not set"; otherwise it is split into at most n fields
   * on ':' and accepted only when there are exactly n fields and the last one
   * has no ':' past its first position. A mismatch reports n and the number
   * of ':'-separated segments of the raw value.
   */
  function DecodeNames(raw: string, n: int): (r: NamesResult)
    requires n >= 1
    ensures r.err.Some? ==> r.names == []
    ensures r.err.None? ==> |r.names| == n
    ensures r.err == Some(NamesNotSet) <==> raw == ""
    ensures r.err.Some? && raw != "" ==> r.err == Some(NameCountMismatch(n, Count(raw, NameSep) + 1))
  {
    if |raw| < 1 then NamesResult([], Some(NamesNotSet))
    else
      var names := SplitN(raw, NameSep, n);
      if |names| != n || IndexByte(names[n - 1], NameSep) > 0 then
        NamesResult([], Some(NameCountMismatch(n, Count(raw, NameSep) + 1)))
      else NamesResult(names, None)
  }

  /** The last field's test: a ':' in it is allowed only at its very first position. */
  predicate LastFieldAccepted(field: string)
  {
    NameSep in field ==> field[0] == NameSep
  }

  lemma IndexByteNotPositive(field: string)
    ensures IndexByte(field, NameSep) <= 0 <==> LastFieldAccepted(field)
  {
    IndexByteFirst(field, NameSep);
    var k := IndexByte(field, NameSep);
    if k > 0 {
      assert field[..k][0] == field[0];
    }
  }

  /** Exactly the name lists parseNames(n) accepts for a raw LISTEN_FDNAMES value. */
  predicate AcceptedNames(raw: string, n: int, names: seq<string>)
  {
    && raw != ""
    && n >= 1 && |names| == n
    && Join(names, NameSep) == raw
    && InnerFree(names, NameSep)
    && LastFieldAccepted(names[n - 1])
  }

  /**
   * The decoder returns `names` without error if and only if the raw value
   * is non-empty and is `names` joined with ':', every name but the last is
   * free of ':', and the last has a ':' at most at its first position.
   */
  lemma DecodeNamesAccepts(raw: string, n: int, names: seq<string>)
    requires n >= 1
    ensures DecodeNames(raw, n) == NamesResult(names, None) <==> AcceptedNames(raw, n, names)
  {
    if raw != "" {
      var split := SplitN(raw, NameSep, n);
      SplitNShape(raw, NameSep, n);
      IndexByteNotPositive(split[|split| - 1]);
      if AcceptedNames(raw, n, names) {
        assert SplitShape(raw, NameSep, n, names);
        SplitNUnique(raw, NameSep, n, names);
      }
    }
  }

  /** A joined list is empty only when it is the single empty name. */
  lemma JoinNonEmpty(names: seq<string>)
    requires |names| >= 1 && names != [""]
    ensures Join(names, NameSep) != ""
  {
    if |names| > 1 {
      JoinCons(names[0], names[1..], NameSep);
      assert names == [names[0]] + names[1..];
    }
  }

  /**
   * Round trip: any non-empty list of ':'-free names other than [""], joined
   * with ':' and decoded with n = its length, comes back unchanged.
   */
  lemma DecodeNamesRoundTrip(names: seq<string>)
    requires |names| >= 1 && names != [""] && FreeOf(names, NameSep)
    ensures DecodeNames(Join(names, NameSep), |names|) == NamesResult(names, None)
  {
    JoinNonEmpty(names);
    DecodeNamesAccepts(Join(names, NameSep), |names|, names);
  }

  /** The one list the round trip misses: [""] joins to "", which reads as unset. */
  lemma DecodeNamesSingleEmpty()
    ensures DecodeNames(Join([""], NameSep), 1) == NamesResult([], Some(NamesNotSet))
  {
  }

  /** Too few names: fewer ':'-free names than n are always rejected, reporting their number. */
  lemma DecodeNamesTooFew(n: int, names: seq<string>)
    requires 1 <= |names| < n && names != [""] && FreeOf(names, NameSep)
    ensures DecodeNames(Join(names, NameSep), n) == NamesResult([], Some(NameCountMismatch(n, |names|)))
  {
    var raw := Join(names, NameSep);
    assert raw != "" by { JoinNonEmpty(names); }
    assert |SplitN(raw, NameSep, n)| == |names| by { SplitJoin(names, NameSep, n); }
    assert Count(raw, NameSep) + 1 == |names| by { JoinCount(names, NameSep); }
    DecodeNamesShort(raw, n, |names|);
  }

  /**
   * Too many names: more ':'-free names than n are rejected, reporting their
   * number, unless the n-th name is empty. Then the last field starts with
   * ':' and is accepted, so names n, n+1, ... are merged, ':'-joined, into
   * the last one.
   */
  lemma DecodeNamesTooMany(n: int, names: seq<string>)
    requires 1 <= n < |names| && FreeOf(names, NameSep)
    ensures names[n - 1] != "" ==>
      DecodeNames(Join(names, NameSep), n) == NamesResult([], Some(NameCountMismatch(n, |names|)))
    ensures names[n - 1] == "" ==>
      DecodeNames(Join(names, NameSep), n) == NamesResult(names[..n - 1] + [Join(names[n - 1..], NameSep)], None)
  {
    MergedFacts(names, n);
    DecodeNamesByParts(Join(names, NameSep), n, names[..n - 1], Join(names[n - 1..], NameSep), |names|);
  }

  /** The decoder on a non-empty value that SplitN cuts into n - 1 fields and a last one. */
  lemma DecodeNamesByParts(raw: string, n: int, front: seq<string>, last: string, k: int)
    requires n >= 1 && raw != "" && |front| == n - 1 && SplitN(raw, NameSep, n) == front + [last]
    requires Count(raw, NameSep) + 1 == k
    ensures IndexByte(last, NameSep) > 0 ==>
      DecodeNames(raw, n) == NamesResult([], Some(NameCountMismatch(n, k)))
    ensures IndexByte(last, NameSep) <= 0 ==> DecodeNames(raw, n) == NamesResult(front + [last], None)
  {
    assert (front + [last])[n - 1] == last;
  }

  /** What the decoder sees when there are more ':'-free names than n. */
  lemma MergedFacts(names: seq<string>, n: int)
    requires 1 <= n < |names| && FreeOf(names, NameSep)
    ensures Join(names, NameSep) != ""
    ensures SplitN(Join(names, NameSep), NameSep, n) == names[..n - 1] + [Join(names[n - 1..], NameSep)]
    ensures IndexByte(Join(names[n - 1..], NameSep), NameSep) == |names[n - 1]|
    ensures Count(Join(names, NameSep), NameSep) + 1 == |names|
  {
    JoinNonEmpty(names);
    SplitMerged(names, n);
    MergedLast(names, n);
    JoinCount(names, NameSep);
  }

  /** The decoder on a non-empty value that SplitN cuts into fewer than n fields. */
  lemma DecodeNamesShort(raw: string, n: int, k: int)
    requires n >= 1 && raw != "" && |SplitN(raw, NameSep, n)| == k < n && Count(raw, NameSep) + 1 == k
    ensures DecodeNames(raw, n) == NamesResult([], Some(NameCountMismatch(n, k)))
  {
  }

  /** Splitting more ':'-free names than n into n fields merges the surplus into the last field. */
  lemma SplitMerged(names: seq<string>, n: int)
    requires 1 <= n < |names| && FreeOf(names, NameSep)
    ensures SplitN(Join(names, NameSep), NameSep, n) == names[..n - 1] + [Join(names[n - 1..], NameSep)]
  {
    var front, back := names[..n - 1], names[n - 1..];
    var r := front + [Join(back, NameSep)];
    JoinTail(front, back, NameSep);
    assert front + back == names;
    assert forall k :: 0 <= k < n - 1 ==> r[k] == names[k];
    assert SplitShape(Join(names, NameSep), NameSep, n, r);
    SplitNUnique(Join(names, NameSep), NameSep, n, r);
  }

  /** The merged last field holds its first ':' right after the n-th name. */
  lemma MergedLast(names: seq<string>, n: int)
    requires 1 <= n < |names| && FreeOf(names, NameSep)
    ensures IndexByte(Join(names[n - 1..], NameSep), NameSep) == |names[n - 1]|
  {
    var back := names[n - 1..];
    JoinCons(names[n - 1], names[n..], NameSep);
    assert back == [names[n - 1]] + names[n..];
    assert NameSep !in names[n - 1];
    FirstSeparator(names[n - 1], NameSep, Join(names[n..], NameSep));
  }

  /** The decoder's tests: one name where two are expected is rejected. */
  lemma DecodeNamesTooFewExample()
    ensures DecodeNames("fd3", 2) == NamesResult([], Some(NameCountMismatch(2, 1)))
  {
    DecodeNamesTooFew(2, ["fd3"]);
  }

  /** The decoder's tests: three names where two are expected are rejected. */
  lemma DecodeNamesTooManyExample()
    ensures DecodeNames("fd3:fd4:fd5", 2) == NamesResult([], Some(NameCountMismatch(2, 3)))
  {
    assert Join(["fd3", "fd4", "fd5"], NameSep) == "fd3:fd4:fd5";
    DecodeNamesTooMany(2, ["fd3", "fd4", "fd5"]);
  }

  /** The named-activation tests: two empty names travel as ":" and come back. */
  lemma DecodeNamesEmptyNamesExample()
    ensures DecodeNames(":", 2) == NamesResult(["", ""], None)
  {
    assert Join(["", ""], NameSep) == ":";
    DecodeNamesRoundTrip(["", ""]);
  }

  /** The quirk of the last field's test: "a::b" passes for two names, as ["a", ":b"]. */
  lemma DecodeNamesQuirkExample()
    ensures DecodeNames("a::b", 2) == NamesResult(["a", ":b"], None)
    ensures DecodeNames(":b", 1) == NamesResult([":b"], None)
  {
    assert Join(["a", "", "b"], NameSep) == "a::b";
    DecodeNamesTooMany(2, ["a", "", "b"]);
    assert Join(["", "b"], NameSep) == ":b";
    DecodeNamesTooMany(1, ["", "b"]);
  }

  // ---------------------------------------------------------------------
  // Sockets and the descriptor-table walker
  // ---------------------------------------------------------------------

  /** A socket handed over by the service manager: its descriptor and its name. */
  datatype Socket = Socket(fd: nat, name: string)
  {
    /** The Unix descriptor of the socket. */
    function Fd(): nat { fd }

    /** The name assigned to the socket. */
    function Name(): string { name }
  }

  /** The synthetic name Listen gives descriptor `fd`. */
  function ProcFdName(fd: int): string
  {
    "/proc/self/fd/" + Itoa(fd)
  }

  /** Different descriptors get different synthetic names. */
  lemma ProcFdNameInjective(fd1: int, fd2: int)
    requires ProcFdName(fd1) == ProcFdName(fd2)
    ensures fd1 == fd2
  {
    var prefix := "/proc/self/fd/";
    assert ProcFdName(fd1)[|prefix|..] == Itoa(fd1);
    assert ProcFdName(fd2)[|prefix|..] == Itoa(fd2);
    AtoiItoa(fd1);
    AtoiItoa(fd2);
  }

  /** The first n descriptors passed by the service manager: FdStart, FdStart + 1, ... */
  function Block(n: int): set<int>
  {
    if n <= 0 then {} else Block(n - 1) + {FdStart + n - 1}
  }

  /** Block(n) is exactly the range [FdStart, FdStart + n). */
  lemma {:induction false} BlockRange(n: int, fd: int)
    ensures fd in Block(n) <==> FdStart <= fd < FdStart + n
  {
    if n > 0 {
      BlockRange(n - 1, fd);
    }
  }

  /** The process's descriptor table, as far as close-on-exec goes. */
  class Descriptors {
    /** The descriptors whose close-on-exec flag is set. */
    var closeOnExec: set<int>

    /** syscall.CloseOnExec: set the flag on `fd`, leave every other descriptor alone. */
    method CloseOnExec(fd: int)
      modifies this
      ensures closeOnExec == old(closeOnExec) + {fd}
    {
      closeOnExec := closeOnExec + {fd};
    }
  }

  /** newSocket: set close-on-exec on `fd` and wrap it with its name. */
  method NewSocket(os: Descriptors, fd: nat, name: string) returns (s: Socket)
    modifies os
    ensures os.closeOnExec == old(os.closeOnExec) + {fd}
    ensures s.Fd() == fd && s.Name() == name
  {
    os.CloseOnExec(fd);
    s := Socket(fd, name);
  }

  /**
   * Listen: decode the count and, when it is at least 1, return sockets
   * 3, 3+1, ..., 3+n-1 in that order, named "/proc/self/fd/<fd>", with
   * close-on-exec set on exactly those descriptors. A count below 1 gives no
   * sockets, with parseEnv's error (if any) passed on.
   */
  method Listen(env: Env, pid: int, os: Descriptors) returns (sockets: seq<Socket>, err: Option<Error>)
    modifies os
    ensures err == ParseEnv(env, pid).err
    ensures ParseEnv(env, pid).n < 1 ==> sockets == [] && os.closeOnExec == old(os.closeOnExec)
    ensures ParseEnv(env, pid).n >= 1 ==>
      && |sockets| == ParseEnv(env, pid).n
      && (forall i :: 0 <= i < |sockets| ==>
            sockets[i].Fd() == FdStart + i && sockets[i].Name() == ProcFdName(FdStart + i))
      && os.closeOnExec == old(os.closeOnExec) + Block(ParseEnv(env, pid).n)
  {
    var count := ParseEnv(env, pid);
    var n := count.n;
    err := count.err;
    if n < 1 {
      sockets := [];
      return;
    }
    var a := new Socket[n];
    var i := 0;
    while i < n
      invariant 0 <= i <= n
      invariant os.closeOnExec == old(os.closeOnExec) + Block(i)
      invariant forall k :: 0 <= k < i ==> a[k] == Socket(FdStart + k, ProcFdName(FdStart + k))
    {
      var fd := FdStart + i;
      var s := NewSocket(os, fd, ProcFdName(fd));
      a[i] := s;
      i := i + 1;
    }
    sockets := a[..];
  }

  /** One socket per name, in order: socket i is descriptor 3+i carrying names[i]. */
  predicate Labelled(sockets: seq<Socket>, names: seq<string>)
  {
    && |sockets| == |names|
    && forall i :: 0 <= i < |sockets| ==> sockets[i].Fd() == FdStart + i && sockets[i].Name() == names[i]
  }

  /**
   * ListenWithNames: like Listen, but LISTEN_FDNAMES is read, and only once
   * the count is at least 1; its error is returned with no sockets and no
   * flag changed. Socket i is descriptor 3+i with the i-th name.
   */
  method ListenWithNames(env: Env, pid: int, os: Descriptors) returns (sockets: seq<Socket>, err: Option<Error>)
    modifies os
    ensures ParseEnv(env, pid).n < 1 ==>
      sockets == [] && err == ParseEnv(env, pid).err && os.closeOnExec == old(os.closeOnExec)
    ensures ParseEnv(env, pid).n >= 1 && ParseNames(env, ParseEnv(env, pid).n).err.Some? ==>
      sockets == [] && err == ParseNames(env, ParseEnv(env, pid).n).err && os.closeOnExec == old(os.closeOnExec)
    ensures ParseEnv(env, pid).n >= 1 && ParseNames(env, ParseEnv(env, pid).n).err.None? ==>
      && err == None
      && Labelled(sockets, ParseNames(env, ParseEnv(env, pid).n).names)
      && os.closeOnExec == old(os.closeOnExec) + Block(ParseEnv(env, pid).n)
  {
    var count := ParseEnv(env, pid);
    var n := count.n;
    err := count.err;
    if n < 1 {
      sockets := [];
      return;
    }
    var parsed := ParseNames(env, n);
    var names := parsed.names;
    err := parsed.err;
    if err.Some? {
      sockets := [];
      return;
    }
    var a := new Socket[n];
    var i := 0;
    while i < n
      invariant 0 <= i <= n
      invariant os.closeOnExec == old(os.closeOnExec) + Block(i)
      invariant forall k :: 0 <= k < i ==> a[k] == Socket(FdStart + k, names[k])
    {
      var fd := FdStart + i;
      var s := NewSocket(os, fd, names[i]);
      a[i] := s;
      i := i + 1;
    }
    sockets := a[..];
  }

  // ---------------------------------------------------------------------
  // The handshake end to end
  // ---------------------------------------------------------------------

  /** The environment a service manager sets up for process `pid` and the named sockets. */
  function ActivationEnv(pid: int, names: seq<string>): Env
  {
    map[PidVar := Itoa(pid), FdsVar := Itoa(|names|), FdNamesVar := Join(names, NameSep)]
  }

  /** What the service manager encodes, the decoder reads back: the count and every name. */
  lemma HandshakeRoundTrip(pid: int, names: seq<string>)
    requires |names| >= 1 && names != [""] && FreeOf(names, NameSep)
    ensures ParseEnv(ActivationEnv(pid, names), pid) == EnvCount(|names|, None)
    ensures ParseNames(ActivationEnv(pid, names), |names|) == NamesResult(names, None)
  {
    var env := ActivationEnv(pid, names);
    ParseEnvRoundTrip(env, pid, |names|);
    DecodeNamesRoundTrip(names);
  }

  /**
   * The named-activation scenario: with the environment a service manager
   * sets up, ListenWithNames hands back descriptor 3+i named names[i], for
   * every i, and flags exactly those descriptors close-on-exec.
   */
  method CheckListenWithNames(pid: int, names: seq<string>, os: Descriptors)
    returns (sockets: seq<Socket>, err: Option<Error>)
    requires |names| >= 1 && names != [""] && FreeOf(names, NameSep)
    modifies os
    ensures err == None && |sockets| == |names|
    ensures forall i :: 0 <= i < |names| ==> sockets[i].Fd() == FdStart + i && sockets[i].Name() == names[i]
    ensures os.closeOnExec == old(os.closeOnExec) + Block(|names|)
  {
    HandshakeRoundTrip(pid, names);
    sockets, err := ListenWithNames(ActivationEnv(pid, names), pid, os);
  }
}
