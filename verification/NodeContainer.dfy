/**
 * How a node's configuration is written into a container and read back from one
 * (internal/agent/docker_ops.go, internal/agent/docker.go).
 */
module NodeContainer {
  import opened Prelude
  import opened Decimal

  const KLEVER_IMAGE: string := "kleverapp/klever-go"

  datatype ContainerConfig = ContainerConfig(
    name: string, imageTag: string, dataDir: string, restAPIPort: int,
    displayName: string, redundancyLevel: int, startInEpoch: bool)

  datatype Mount = Mount(source: string, destination: string)

  /** What the Docker daemon reports about a container. */
  datatype ContainerJSON = ContainerJSON(
    name: string, running: bool, image: string, cmd: seq<string>, binds: seq<string>, mounts: seq<Mount>)

  datatype DiscoveredNode = DiscoveredNode(
    containerName: string, running: bool, dockerImageTag: string, restAPIPort: int,
    displayName: string, redundancyLevel: int, configDirectory: string, dataDirectory: string)

  // ---------------------------------------------------------------- strings

  predicate HasSuffix(s: string, t: string) {
    |t| <= |s| && s[|s| - |t|..] == t
  }

  /** The position of the first `c`, or the length. */
  function IndexByte(s: string, c: char): (i: nat)
    ensures i <= |s| && (i < |s| ==> s[i] == c) && (i == |s| <==> c !in s)
    ensures c !in s[..i]
  {
    if s == [] || s[0] == c then 0 else 1 + IndexByte(s[1..], c)
  }

  /** The position of the last `c`, or -1. */
  function LastIndex(s: string, c: char): (i: int)
    ensures -1 <= i < |s| && (i >= 0 ==> s[i] == c) && (i == -1 <==> c !in s)
    ensures forall j :: i < j < |s| ==> s[j] != c
  {
    if s == [] then -1 else if s[|s| - 1] == c then |s| - 1 else LastIndex(s[..|s| - 1], c)
  }

  lemma IndexOfFirst(a: string, c: char, b: string)
    requires c !in a
    ensures IndexByte(a + [c] + b, c) == |a|
  {
    hide IndexByte;
    var s := a + [c] + b;
    var i := IndexByte(s, c);
    assert s[|a|] == c && forall j :: 0 <= j < |a| ==> s[j] != c;
    assert forall j :: 0 <= j < i ==> s[j] in s[..i];
  }

  lemma {:induction false} LastOfLast(a: string, c: char, b: string)
    requires c !in b
    ensures LastIndex(a + [c] + b, c) == |a|
  {
    var s := a + [c] + b;
    if b == [] {
      assert s[|s| - 1] == c;
    } else {
      var n := |b| - 1;
      assert s[|s| - 1] == b[n] && s[..|s| - 1] == a + [c] + b[..n];
      LastOfLast(a, c, b[..n]);
    }
  }

  function ParentDir(path: string): string {
    var p := if HasSuffix(path, "/") then path[..|path| - 1] else path;
    var i := LastIndex(p, '/');
    if i > 0 then p[..i] else p
  }

  lemma ParentOf(dir: string, name: string)
    requires dir != "" && name != "" && '/' !in name
    ensures ParentDir(dir + "/" + name) == dir
  {
    var path := dir + "/" + name;
    assert path[|path| - 1] == name[|name| - 1];
    LastOfLast(dir, '/', name);
  }

  // ---------------------------------------------------------------- command line arguments

  /** `--flag value` or `--flag=value`; "" when absent. */
  function ParseStringArg(args: seq<string>, flag: string): string {
    if args == [] then "" else
    if args[0] == flag && |args| > 1 then args[1] else
    if Flagged(flag, "") <= args[0] then args[0][|flag| + 1..] else
    ParseStringArg(args[1..], flag)
  }

  function ParseIntArg(args: seq<string>, flag: string, default: int): int {
    var s := ParseStringArg(args, flag);
    if s == "" then default else
    var i := LastIndex(s, ':');
    match ScanInt(s[i + 1..])
    case Some(v) => v
    case None => default
  }

  /** Two arguments that differ early are not taken for each other. */
  lemma SkipArg(arg: string, args: seq<string>, flag: string, k: nat)
    requires k < |arg| && k < |flag| && arg[k] != flag[k]
    ensures ParseStringArg([arg] + args, flag) == ParseStringArg(args, flag)
  {
    assert Flagged(flag, "")[k] == flag[k];
    assert ([arg] + args)[1..] == args;
  }

  lemma FoundArg(flag: string, value: string, args: seq<string>)
    ensures ParseStringArg([Flagged(flag, value)] + args, flag) == value
  {
    var arg := Flagged(flag, value);
    assert arg[..|flag| + 1] == Flagged(flag, "") && arg[|flag| + 1..] == value;
    assert arg != flag by {
      assert |arg| > |flag|;
    }
  }

  // ---------------------------------------------------------------- CreateContainer

  predicate IsNameChar(c: char) {
    'a' <= c <= 'z' || 'A' <= c <= 'Z' || '0' <= c <= '9'
  }

  predicate ValidConfig(cfg: ContainerConfig) {
    && cfg.name != "" && IsNameChar(cfg.name[0])
    && (forall i :: 1 <= i < |cfg.name| ==> IsNameChar(cfg.name[i]) || cfg.name[i] in "._-")
    && cfg.imageTag != "" && cfg.dataDir != ""
    && 1 <= cfg.restAPIPort <= 65535
    && (forall c :: c in cfg.imageTag ==> c !in " \t\n;|&$`")
  }

  function Optional(present: bool, arg: string): seq<string> {
    if present then [arg] else []
  }

  const ROOT: string := "/opt/klever-blockchain"
  const CONFIG_DIR: string := ROOT + "/config/node"
  const DB_DIR: string := ROOT + "/db"
  const LOGS_DIR: string := ROOT + "/logs"
  const WALLET_DIR: string := ROOT + "/wallet"

  const REST: string := "--rest-api-interface"
  const DISPLAY: string := "--display-name"
  const REDUNDANCY: string := "--redundancy-level"
  const EPOCH: string := "--start-in-epoch"

  function Flagged(flag: string, value: string): string {
    flag + "=" + value
  }

  function OptionalArguments(cfg: ContainerConfig): seq<string> {
    Optional(cfg.startInEpoch, EPOCH)
    + (Optional(cfg.displayName != "", Flagged(DISPLAY, cfg.displayName))
       + Optional(cfg.redundancyLevel > 0, Flagged(REDUNDANCY, FormatInt(cfg.redundancyLevel))))
  }

  function Arguments(cfg: ContainerConfig): seq<string> {
    ["--log-save"] + (["--use-log-view"]
    + ([Flagged(REST, "0.0.0.0" + ":" + FormatInt(cfg.restAPIPort))] + OptionalArguments(cfg)))
  }

  method BuildArguments(cfg: ContainerConfig) returns (args: seq<string>)
    ensures args == Arguments(cfg)
  {
    hide FormatInt, Flagged;
    args := ["--log-save", "--use-log-view", Flagged(REST, "0.0.0.0" + ":" + FormatInt(cfg.restAPIPort))];
    if cfg.startInEpoch {
      args := args + [EPOCH];
    }
    if cfg.displayName != "" {
      args := args + [Flagged(DISPLAY, cfg.displayName)];
    }
    if cfg.redundancyLevel > 0 {
      args := args + [Flagged(REDUNDANCY, FormatInt(cfg.redundancyLevel))];
    }
  }

  /** The four bind mounts below the data directory. */
  function BindMounts(dataDir: string): seq<Mount> {
    [Mount(dataDir + "/config", CONFIG_DIR), Mount(dataDir + "/db", DB_DIR),
     Mount(dataDir + "/logs", LOGS_DIR), Mount(dataDir + "/wallet", WALLET_DIR)]
  }

  function Bind(m: Mount): string {
    m.source + ":" + m.destination
  }

  function Binds(dataDir: string): seq<string> {
    var m := BindMounts(dataDir);
    [Bind(m[0]), Bind(m[1]), Bind(m[2]), Bind(m[3])]
  }

  /**
   * `c` is what the daemon may report for a container created from `cfg`: the mounts come in any
   * order, or are not listed at all. A ':' in a host path would be read as a separator.
   */
  ghost predicate CreatedFrom(c: ContainerJSON, cfg: ContainerConfig) {
    && ':' !in cfg.dataDir
    && c.name == "/" + cfg.name
    && c.image == KLEVER_IMAGE + ":" + cfg.imageTag
    && c.cmd == Arguments(cfg)
    && c.binds == Binds(cfg.dataDir)
    && (c.mounts == [] || multiset(c.mounts) == multiset(BindMounts(cfg.dataDir)))
  }

  // ---------------------------------------------------------------- parseContainerToNode

  predicate IsConfigMount(dest: string) {
    HasSuffix(dest, "/node/config") || HasSuffix(dest, "/config/node")
  }

  predicate IsDbMount(dest: string) {
    HasSuffix(dest, "/node/db") || HasSuffix(dest, "/db")
  }

  datatype Dirs = Dirs(config: string, data: string)

  function AddMount(d: Dirs, m: Mount): Dirs {
    if IsConfigMount(m.destination) then Dirs(m.source, ParentDir(m.source)) else
    if IsDbMount(m.destination) && d.data == "" then d.(data := ParentDir(m.source)) else
    d
  }

  function DirsOfMounts(mounts: seq<Mount>): Dirs {
    if mounts == [] then Dirs("", "") else AddMount(DirsOfMounts(mounts[..|mounts| - 1]), mounts[|mounts| - 1])
  }

  /** The first two parts of "host:container[:opts]". */
  function SplitBind(bind: string): Option<Mount> {
    var i := IndexByte(bind, ':');
    if i == |bind| then None else
    var rest := bind[i + 1..];
    Some(Mount(bind[..i], rest[..IndexByte(rest, ':')]))
  }

  function DirsOfBinds(d: Dirs, binds: seq<string>): Dirs {
    if binds == [] then d else
    match SplitBind(binds[0])
    case Some(m) =>
      if IsConfigMount(m.destination) then Dirs(m.source, ParentDir(m.source)) else DirsOfBinds(d, binds[1..])
    case None => DirsOfBinds(d, binds[1..])
  }

  function DirsOf(cj: ContainerJSON): Dirs {
    var d := DirsOfMounts(cj.mounts);
    if d.config == "" then DirsOfBinds(d, cj.binds) else d
  }

  function TagOf(image: string): string {
    var i := IndexByte(image, ':');
    if i < |image| then image[i + 1..] else ""
  }

  function NodeOf(cj: ContainerJSON): DiscoveredNode {
    var d := DirsOf(cj);
    DiscoveredNode(
      if "/" <= cj.name then cj.name[1..] else cj.name,
      cj.running,
      TagOf(cj.image),
      ParseIntArg(cj.cmd, REST, 8080),
      ParseStringArg(cj.cmd, DISPLAY),
      ParseIntArg(cj.cmd, REDUNDANCY, 0),
      d.config, d.data)
  }

  method ParseContainerToNode(cj: ContainerJSON) returns (node: DiscoveredNode)
    ensures node == NodeOf(cj)
  {
    hide ParseIntArg, ParseStringArg, ParentDir, IsConfigMount, IsDbMount, SplitBind, IndexByte;
    node := DiscoveredNode(if "/" <= cj.name then cj.name[1..] else cj.name, cj.running, "", 8080, "", 0, "", "");
    var colon := IndexByte(cj.image, ':');
    if colon < |cj.image| {
      node := node.(dockerImageTag := cj.image[colon + 1..]);
    }
    node := node.(restAPIPort := ParseIntArg(cj.cmd, REST, 8080));
    node := node.(displayName := ParseStringArg(cj.cmd, DISPLAY));
    node := node.(redundancyLevel := ParseIntArg(cj.cmd, REDUNDANCY, 0));
    ghost var base := node;
    for i := 0 to |cj.mounts|
      invariant var d := DirsOfMounts(cj.mounts[..i]);
                node == base.(configDirectory := d.config, dataDirectory := d.data)
    {
      assert cj.mounts[..i + 1][..i] == cj.mounts[..i];
      var m := cj.mounts[i];
      if IsConfigMount(m.destination) {
        node := node.(configDirectory := m.source, dataDirectory := ParentDir(m.source));
      } else if IsDbMount(m.destination) {
        if node.dataDirectory == "" {
          node := node.(dataDirectory := ParentDir(m.source));
        }
      }
    }
    assert cj.mounts[..|cj.mounts|] == cj.mounts;
    if node.configDirectory == "" {
      var rest := cj.binds;
      ghost var d := DirsOfMounts(cj.mounts);
      while rest != []
        invariant DirsOfBinds(d, rest) == DirsOfBinds(d, cj.binds)
        invariant node == base.(configDirectory := d.config, dataDirectory := d.data)
      {
        var parts := SplitBind(rest[0]);
        if parts.Some? && IsConfigMount(parts.value.destination) {
          node := node.(configDirectory := parts.value.source, dataDirectory := ParentDir(parts.value.source));
          return;
        }
        rest := rest[1..];
      }
    }
  }

  // ---------------------------------------------------------------- round trip

  /** The three fixed arguments come first. */
  lemma FixedArguments(cfg: ContainerConfig)
    ensures ParseStringArg(Arguments(cfg), REST) == "0.0.0.0" + ":" + FormatInt(cfg.restAPIPort)
    ensures ParseStringArg(Arguments(cfg), DISPLAY) == ParseStringArg(OptionalArguments(cfg), DISPLAY)
    ensures ParseStringArg(Arguments(cfg), REDUNDANCY) == ParseStringArg(OptionalArguments(cfg), REDUNDANCY)
  {
    hide FormatInt, ParseStringArg, OptionalArguments;
    var address := "0.0.0.0" + ":" + FormatInt(cfg.restAPIPort);
    var tail := OptionalArguments(cfg);
    var rest := [Flagged(REST, address)] + tail;
    var view := ["--use-log-view"] + rest;
    forall flag | flag in {REST, DISPLAY, REDUNDANCY}
      ensures ParseStringArg(Arguments(cfg), flag) == ParseStringArg(rest, flag)
    {
      assert flag[2] != 'l' && flag[2] != 'u';
      SkipArg("--log-save", view, flag, 2);
      SkipArg("--use-log-view", rest, flag, 2);
    }
    FoundArg(REST, address, tail);
    assert Flagged(REST, address)[2] == 'r' && Flagged(REST, address)[4] == 's';
    SkipArg(Flagged(REST, address), tail, DISPLAY, 2);
    SkipArg(Flagged(REST, address), tail, REDUNDANCY, 4);
  }

  lemma OptionalArgumentsParse(cfg: ContainerConfig)
    ensures ParseStringArg(OptionalArguments(cfg), DISPLAY) == cfg.displayName
    ensures ParseStringArg(OptionalArguments(cfg), REDUNDANCY)
            == if cfg.redundancyLevel > 0 then FormatInt(cfg.redundancyLevel) else ""
  {
    hide FormatInt, ParseStringArg;
    var level := Flagged(REDUNDANCY, FormatInt(cfg.redundancyLevel));
    var last := Optional(cfg.redundancyLevel > 0, level);
    var shown := Optional(cfg.displayName != "", Flagged(DISPLAY, cfg.displayName)) + last;
    NothingParsed(DISPLAY);
    NothingParsed(REDUNDANCY);
    FoundArg(REDUNDANCY, FormatInt(cfg.redundancyLevel), []);
    SkipArg(level, [], DISPLAY, 2);
    assert last == [] || last == [level] + [];
    FoundArg(DISPLAY, cfg.displayName, last);
    SkipArg(Flagged(DISPLAY, cfg.displayName), last, REDUNDANCY, 2);
    assert shown == last || shown == [Flagged(DISPLAY, cfg.displayName)] + last;
    assert OptionalArguments(cfg) == shown || OptionalArguments(cfg) == [EPOCH] + shown;
    SkipArg(EPOCH, shown, DISPLAY, 2);
    SkipArg(EPOCH, shown, REDUNDANCY, 2);
  }

  lemma NothingParsed(flag: string)
    ensures ParseStringArg([], flag) == ""
  {
  }

  /** The number behind the last ':' of a printed value. */
  lemma IntBehindColon(before: string, n: int)
    ensures var s := before + ":" + FormatInt(n); ScanInt(s[LastIndex(s, ':') + 1..]) == Some(n)
    ensures var s := FormatInt(n); ScanInt(s[LastIndex(s, ':') + 1..]) == Some(n)
  {
    var t := FormatInt(n);
    FormatAvoids(n, ':');
    ScanFormat(n);
    hide FormatInt, ScanInt, LastIndex;
    LastOfLast(before, ':', t);
    var s := before + ":" + t;
    assert before + [':'] + t == s && s[|before| + 1..] == t;
    assert t[0..] == t;
  }

  /** A flag whose value ends in a printed number. */
  lemma IntArgIs(args: seq<string>, flag: string, default: int, before: string, n: int)
    requires ParseStringArg(args, flag) == before + ":" + FormatInt(n) || ParseStringArg(args, flag) == FormatInt(n)
    ensures ParseIntArg(args, flag, default) == n
  {
    IntBehindColon(before, n);
    FormatNotEmpty(n);
    hide FormatInt, ScanInt, LastIndex, ParseStringArg;
  }

  lemma FormatNotEmpty(n: int)
    ensures FormatInt(n) != ""
  {
    hide Itoa;
  }

  lemma PortParses(cfg: ContainerConfig)
    ensures ParseIntArg(Arguments(cfg), REST, 8080) == cfg.restAPIPort
  {
    hide Arguments, FormatInt, ParseStringArg, ParseIntArg;
    FixedArguments(cfg);
    IntArgIs(Arguments(cfg), REST, 8080, "0.0.0.0", cfg.restAPIPort);
  }

  lemma DisplayParses(cfg: ContainerConfig)
    ensures ParseStringArg(Arguments(cfg), DISPLAY) == cfg.displayName
  {
    hide Arguments, OptionalArguments, FormatInt, ParseStringArg;
    FixedArguments(cfg);
    OptionalArgumentsParse(cfg);
  }

  lemma RedundancyParses(cfg: ContainerConfig)
    ensures ParseIntArg(Arguments(cfg), REDUNDANCY, 0) == if cfg.redundancyLevel > 0 then cfg.redundancyLevel else 0
  {
    hide Arguments, OptionalArguments, FormatInt, ParseStringArg;
    FixedArguments(cfg);
    OptionalArgumentsParse(cfg);
    if cfg.redundancyLevel > 0 {
      hide ParseIntArg;
      IntArgIs(Arguments(cfg), REDUNDANCY, 0, "", cfg.redundancyLevel);
    }
  }

  lemma ArgumentsParse(cfg: ContainerConfig)
    ensures ParseIntArg(Arguments(cfg), REST, 8080) == cfg.restAPIPort
    ensures ParseStringArg(Arguments(cfg), DISPLAY) == cfg.displayName
    ensures ParseIntArg(Arguments(cfg), REDUNDANCY, 0) == if cfg.redundancyLevel > 0 then cfg.redundancyLevel else 0
  {
    hide *;
    PortParses(cfg);
    DisplayParses(cfg);
    RedundancyParses(cfg);
  }

  /** Whatever subset and order of the four mounts has been seen. */
  lemma {:induction false} MountsSeen(dataDir: string, mounts: seq<Mount>)
    requires dataDir != "" && forall m :: m in mounts ==> m in BindMounts(dataDir)
    ensures var d, config := DirsOfMounts(mounts), BindMounts(dataDir)[0];
            && (d.data == "" || d.data == dataDir)
            && (config in mounts ==> d == Dirs(config.source, dataDir))
            && (config !in mounts ==> d.config == "")
  {
    if mounts != [] {
      var n := |mounts| - 1;
      MountsSeen(dataDir, mounts[..n]);
      assert mounts == mounts[..n] + [mounts[n]];
      OneMount(dataDir, mounts[n]);
    }
  }

  /** Only the first destination is taken for the config mount, only the second for the database. */
  lemma Destinations()
    ensures IsConfigMount(CONFIG_DIR)
    ensures !IsConfigMount(DB_DIR) && !IsConfigMount(LOGS_DIR) && !IsConfigMount(WALLET_DIR)
    ensures !IsDbMount(LOGS_DIR) && !IsDbMount(WALLET_DIR)
  {
    HasOwnSuffix(ROOT, "/config/node");
    LastCharOfSuffix();
    hide HasSuffix;
    assert DB_DIR[|DB_DIR| - 1] == 'b' && LOGS_DIR[|LOGS_DIR| - 1] == 's' && WALLET_DIR[|WALLET_DIR| - 1] == 't';
  }

  lemma HasOwnSuffix(s: string, t: string)
    ensures HasSuffix(s + t, t)
  {
  }

  lemma LastCharOfSuffix()
    ensures forall d: string :: IsConfigMount(d) ==> d != [] && d[|d| - 1] in "ge"
    ensures forall d: string :: IsDbMount(d) ==> d != [] && d[|d| - 1] == 'b'
  {
    forall d: string, t: string | t != "" && HasSuffix(d, t)
      ensures d != [] && d[|d| - 1] == t[|t| - 1]
    {
      assert d[|d| - |t|..][|t| - 1] == t[|t| - 1];
    }
  }

  lemma OneMount(dataDir: string, m: Mount)
    requires dataDir != "" && m in BindMounts(dataDir)
    ensures IsConfigMount(m.destination) <==> m == BindMounts(dataDir)[0]
    ensures IsConfigMount(m.destination) || IsDbMount(m.destination) ==> ParentDir(m.source) == dataDir
  {
    hide ParentDir, IsConfigMount, IsDbMount;
    Destinations();
    ParentOf(dataDir, "config");
    ParentOf(dataDir, "db");
    assert dataDir + "/" + "config" == dataDir + "/config" && dataDir + "/" + "db" == dataDir + "/db";
    assert |DB_DIR| != |CONFIG_DIR| && |LOGS_DIR| != |CONFIG_DIR| && |WALLET_DIR| != |CONFIG_DIR|;
  }

  lemma FirstBind(dataDir: string)
    requires dataDir != "" && ':' !in dataDir
    ensures SplitBind(Bind(BindMounts(dataDir)[0])) == Some(BindMounts(dataDir)[0])
  {
    assert ':' !in ROOT;
    SplitTwo(dataDir + "/config", CONFIG_DIR);
  }

  lemma SplitTwo(source: string, destination: string)
    requires ':' !in source && ':' !in destination
    ensures SplitBind(Bind(Mount(source, destination))) == Some(Mount(source, destination))
  {
    var bind := source + ":" + destination;
    assert bind == source + [':'] + destination;
    IndexOfFirst(source, ':', destination);
    hide IndexByte;
    assert bind[..|source|] == source && bind[|source| + 1..] == destination;
    assert destination[..|destination|] == destination;
  }

  lemma DirsRoundTrip(c: ContainerJSON, cfg: ContainerConfig)
    requires CreatedFrom(c, cfg) && cfg.dataDir != ""
    ensures DirsOf(c) == Dirs(cfg.dataDir + "/config", cfg.dataDir)
  {
    var mounts := BindMounts(cfg.dataDir);
    if c.mounts == [] {
      FirstBind(cfg.dataDir);
      OneMount(cfg.dataDir, mounts[0]);
    } else {
      forall m
        ensures m in c.mounts <==> m in mounts
      {
        assert m in c.mounts <==> m in multiset(c.mounts);
        assert m in mounts <==> m in multiset(mounts);
      }
      assert mounts[0] in mounts;
      MountsSeen(cfg.dataDir, c.mounts);
    }
  }

  lemma TagRoundTrip(tag: string)
    ensures TagOf(KLEVER_IMAGE + ":" + tag) == tag
  {
    var image := KLEVER_IMAGE + ":" + tag;
    assert image == KLEVER_IMAGE + [':'] + tag;
    IndexOfFirst(KLEVER_IMAGE, ':', tag);
    assert image[|KLEVER_IMAGE| + 1..] == tag;
  }

  // ---------------------------------------------------------------- what is read from any container

  /** Argument `i` gives the flag a value, its own or the next argument. */
  predicate Gives(args: seq<string>, flag: string, i: nat)
    requires i < |args|
  {
    (args[i] == flag && i + 1 < |args|) || flag + "=" <= args[i]
  }

  /** The value of a flag is the one given first, in either form, and empty if none is. */
  lemma {:induction false} FirstGivenValue(args: seq<string>, flag: string, i: nat)
    requires i <= |args| && forall j :: 0 <= j < i ==> !Gives(args, flag, j)
    requires i < |args| ==> Gives(args, flag, i)
    ensures var v := ParseStringArg(args, flag);
            if i == |args| then v == ""
            else if args[i] == flag then v == args[i + 1]
            else args[i] == flag + "=" + v
  {
    if i > 0 {
      assert !Gives(args, flag, 0);
      forall j | 0 <= j < |args[1..]|
        ensures Gives(args[1..], flag, j) <==> Gives(args, flag, j + 1)
      {
      }
      FirstGivenValue(args[1..], flag, i - 1);
    }
  }

  /** Of several mounts of the configuration directory the last one listed decides. */
  lemma {:induction false} LastConfigMount(mounts: seq<Mount>, i: nat)
    requires i < |mounts| && IsConfigMount(mounts[i].destination)
    requires forall j :: i < j < |mounts| ==> !IsConfigMount(mounts[j].destination)
    requires ParentDir(mounts[i].source) != ""
    ensures DirsOfMounts(mounts) == Dirs(mounts[i].source, ParentDir(mounts[i].source))
  {
    hide IsConfigMount, IsDbMount, ParentDir;
    if i < |mounts| - 1 {
      LastConfigMount(mounts[..|mounts| - 1], i);
    }
  }

  /** Without one, the data directory is that of the first database mount, and there is no configuration directory. */
  lemma {:induction false} FirstDbMount(mounts: seq<Mount>, i: nat)
    requires i <= |mounts| && forall j :: 0 <= j < |mounts| ==> !IsConfigMount(mounts[j].destination)
    requires forall j :: 0 <= j < i ==> !IsDbMount(mounts[j].destination)
    requires i < |mounts| ==> IsDbMount(mounts[i].destination) && ParentDir(mounts[i].source) != ""
    ensures DirsOfMounts(mounts) == Dirs("", if i < |mounts| then ParentDir(mounts[i].source) else "")
  {
    hide IsConfigMount, IsDbMount, ParentDir;
    if mounts != [] {
      var n := |mounts| - 1;
      FirstDbMount(mounts[..n], if i <= n then i else n);
    }
  }

  predicate IsConfigBind(bind: string) {
    SplitBind(bind).Some? && IsConfigMount(SplitBind(bind).value.destination)
  }

  /** Of several binds of the configuration directory the first one decides; without one nothing changes. */
  lemma {:induction false} FirstConfigBind(d: Dirs, binds: seq<string>, i: nat)
    requires i <= |binds|
    requires forall j :: 0 <= j < i ==> !IsConfigBind(binds[j])
    requires i < |binds| ==> IsConfigBind(binds[i])
    ensures DirsOfBinds(d, binds) ==
            if i == |binds| then d
            else Dirs(SplitBind(binds[i]).value.source, ParentDir(SplitBind(binds[i]).value.source))
  {
    hide IsConfigMount, ParentDir, SplitBind;
    if i > 0 {
      FirstConfigBind(d, binds[1..], i - 1);
    }
  }

  lemma HostPart(source: string, rest: string)
    requires ':' !in source
    ensures SplitBind(source + [':'] + rest) == Some(Mount(source, rest[..IndexByte(rest, ':')]))
  {
    IndexOfFirst(source, ':', rest);
    var bind := source + [':'] + rest;
    assert bind[..|source|] == source && bind[|source| + 1..] == rest;
    hide IndexByte;
  }

  /** A bind is cut at its first two colons; what follows the second are options. */
  lemma BindParts(source: string, destination: string, options: string)
    requires ':' !in source && ':' !in destination
    ensures SplitBind(source + [':'] + destination) == Some(Mount(source, destination))
    ensures SplitBind(source + [':'] + (destination + [':'] + options)) == Some(Mount(source, destination))
  {
    HostPart(source, destination);
    HostPart(source, destination + [':'] + options);
    IndexOfFirst(destination, ':', options);
    hide SplitBind;
    assert (destination + [':'] + options)[..|destination|] == destination;
    assert destination[..|destination|] == destination;
  }

  /**
   * The configuration rebuilt from what was read back. The start-in-epoch flag is not read back;
   * whoever rebuilds it decides.
   */
  function ConfigOf(node: DiscoveredNode, startInEpoch: bool): ContainerConfig {
    ContainerConfig(node.containerName, node.dockerImageTag, node.dataDirectory, node.restAPIPort,
                    node.displayName, node.redundancyLevel, startInEpoch)
  }

  /**
   * Rebuilding the configuration of a container from what is read back, with some choice of the
   * start-in-epoch flag, yields the one it was created from, whatever the mount order, exactly if
   * the redundancy level is not negative and the flag is chosen as it was.
   */
  lemma RoundTripIff(c: ContainerJSON, cfg: ContainerConfig, startInEpoch: bool)
    requires ValidConfig(cfg) && CreatedFrom(c, cfg)
    ensures ConfigOf(NodeOf(c), startInEpoch)
            == cfg.(redundancyLevel := if cfg.redundancyLevel > 0 then cfg.redundancyLevel else 0,
                    startInEpoch := startInEpoch)
    ensures ConfigOf(NodeOf(c), startInEpoch) == cfg <==> cfg.redundancyLevel >= 0 && startInEpoch == cfg.startInEpoch
    ensures NodeOf(c).configDirectory == cfg.dataDir + "/config"
  {
    ArgumentsParse(cfg);
    DirsRoundTrip(c, cfg);
    TagRoundTrip(cfg.imageTag);
    assert c.name[1..] == cfg.name;
    hide Arguments, ParseIntArg, ParseStringArg, DirsOf, TagOf, ValidConfig;
  }
}
