/**
  The top-level argument loop of server.swift: every `--hostname` and `--port`
  in `CommandLine.arguments` sets the value from the argument after it, so the
  last one wins; in every other case the values stay as they are.
*/
module Arguments {
  import opened Wrappers
  import opened Numerals

  const DefaultHostname: string := "0.0.0.0"
  const DefaultPort: int := 8000
  const HostnameFlag: string := "--hostname"
  const PortFlag: string := "--port"

  /** The position of the last occurrence of `flag`, if any. */
  function LastIndexOf(args: seq<string>, flag: string): (r: Option<nat>)
    ensures r.None? <==> flag !in args
    ensures r.Some? ==> r.value < |args| && args[r.value] == flag && flag !in args[r.value + 1..]
  {
    if args == [] then None
    else if args[|args| - 1] == flag then Some(|args| - 1)
    else
      var init := args[..|args| - 1];
      assert args == init + [args[|args| - 1]];
      var r := LastIndexOf(init, flag);
      assert r.Some? ==> args[r.value + 1..] == init[r.value + 1..] + [args[|args| - 1]];
      r
  }

  /** What `--hostname` at position `i` sets: the next argument, or the default when there is none. */
  function HostnameValue(args: seq<string>, i: nat): string
    requires i < |args|
  {
    if i + 1 < |args| then args[i + 1] else DefaultHostname
  }

  /** What `--port` at position `i` sets: `Int` of the next argument, or the default. */
  function PortValue(args: seq<string>, i: nat): int
    requires i < |args|
  {
    if i + 1 < |args| then ParseInt(args[i + 1]).GetOr(DefaultPort) else DefaultPort
  }

  /** The hostname once the loop has looked at the first `k` arguments. */
  function HostnameAfter(args: seq<string>, k: nat): string
    requires k <= |args|
  {
    match LastIndexOf(args[..k], HostnameFlag)
    case None => DefaultHostname
    case Some(i) => HostnameValue(args, i)
  }

  function PortAfter(args: seq<string>, k: nat): int
    requires k <= |args|
  {
    match LastIndexOf(args[..k], PortFlag)
    case None => DefaultPort
    case Some(i) => PortValue(args, i)
  }

  function Hostname(args: seq<string>): string {
    HostnameAfter(args, |args|)
  }

  function Port(args: seq<string>): int {
    PortAfter(args, |args|)
  }

  /** The loop over `args` that sets `hostname` and `port`. */
  method ParseArguments(args: seq<string>) returns (hostname: string, port: int)
    ensures hostname == Hostname(args) && port == Port(args)
  {
    hostname := DefaultHostname;
    port := DefaultPort;
    for index := 0 to |args|
      invariant hostname == HostnameAfter(args, index)
      invariant port == PortAfter(args, index)
    {
      var argument := args[index];
      assert args[..index + 1][..index] == args[..index];
      if argument == HostnameFlag {
        hostname := if index + 1 < |args| then args[index + 1] else DefaultHostname;
      } else if argument == PortFlag {
        port := if index + 1 < |args| then ParseInt(args[index + 1]).GetOr(DefaultPort) else DefaultPort;
      }
    }
  }

  /** A flag at `i` with no copy of it after `i` is the last occurrence. */
  lemma LastIndexAt(args: seq<string>, flag: string, i: nat)
    requires i < |args| && args[i] == flag && flag !in args[i + 1..]
    ensures LastIndexOf(args, flag) == Some(i)
  {
  }

  /** Without the flags both values keep their defaults. */
  lemma DefaultsWithoutFlags(args: seq<string>)
    ensures HostnameFlag !in args ==> Hostname(args) == DefaultHostname
    ensures PortFlag !in args ==> Port(args) == DefaultPort
  {
    assert args[..|args|] == args;
  }

  /** The last `--hostname` followed by a value decides the hostname. */
  lemma LastHostnameWins(before: seq<string>, value: string, after: seq<string>)
    requires HostnameFlag !in [value] + after
    ensures Hostname(before + [HostnameFlag, value] + after) == value
  {
    var args := before + [HostnameFlag, value] + after;
    assert args[..|args|] == args;
    assert args[|before| + 1..] == [value] + after;
    LastIndexAt(args, HostnameFlag, |before|);
  }

  /** The last `--port` followed by a value decides the port: `Int(value)`, or 8000 when it is not one. */
  lemma LastPortWins(before: seq<string>, value: string, after: seq<string>)
    requires PortFlag !in [value] + after
    ensures Port(before + [PortFlag, value] + after) == ParseInt(value).GetOr(DefaultPort)
  {
    var args := before + [PortFlag, value] + after;
    assert args[..|args|] == args;
    assert args[|before| + 1..] == [value] + after;
    LastIndexAt(args, PortFlag, |before|);
  }

  /** A `--hostname` or `--port` with nothing after it resets that value to its default. */
  lemma TrailingFlagResets(before: seq<string>)
    ensures Hostname(before + [HostnameFlag]) == DefaultHostname
    ensures Port(before + [PortFlag]) == DefaultPort
  {
    var h := before + [HostnameFlag];
    var p := before + [PortFlag];
    assert h[..|h|] == h && p[..|p|] == p;
    assert h[|before| + 1..] == [] && p[|before| + 1..] == [];
    LastIndexAt(h, HostnameFlag, |before|);
    LastIndexAt(p, PortFlag, |before|);
  }

  /**
    An argument that is not a flag, and does not follow one, leaves both values
    as they were.
  */
  lemma OtherArgumentIgnored(args: seq<string>, argument: string)
    requires argument != HostnameFlag && argument != PortFlag
    requires args != [] ==> args[|args| - 1] != HostnameFlag && args[|args| - 1] != PortFlag
    ensures Hostname(args + [argument]) == Hostname(args)
    ensures Port(args + [argument]) == Port(args)
  {
    var extended := args + [argument];
    assert extended[..|extended|] == extended;
    assert args[..|args|] == args;
    assert extended[..|extended| - 1] == args;
  }
}
