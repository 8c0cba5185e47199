/** The mount table of the agent jail: an ordered list of mounts of which a later one hides
    an earlier one at and below its target. */
module JailMounts {
  import opened Basics

  /** An absolute, canonical path as its components. */
  type Path = seq<string>

  datatype Kind = Proc | Dev | Tmpfs | Ro | Rw

  /** `source` is the host path of a bind. */
  datatype Mount = Mount(kind: Kind, source: Path, target: Path)

  function Bind(kind: Kind, p: Path): Mount {
    Mount(kind, p, p)
  }

  /** `x` is `p` or below it. */
  predicate Covers(p: Path, x: Path) {
    p <= x
  }

  /** The mount that decides how `x` is reached: the last one whose target covers it. */
  function Effective(mounts: seq<Mount>, x: Path): Option<Mount> {
    if mounts == [] then None
    else
      var n := |mounts| - 1;
      if Covers(mounts[n].target, x) then Some(mounts[n]) else Effective(mounts[..n], x)
  }

  predicate Writable(mounts: seq<Mount>, x: Path) {
    Effective(mounts, x).Some? && Effective(mounts, x).value.kind == Rw
  }

  predicate ReadOnly(mounts: seq<Mount>, x: Path) {
    Effective(mounts, x).Some? && Effective(mounts, x).value.kind == Ro
  }

  /** What the builder asks of the host. `made` is whether a directory stands after the
      attempt to create it, `copied` whether the file could be copied to a target. */
  datatype Host = Host(
    exists_: Path -> bool,
    isDir: Path -> bool,
    made: Path -> bool,
    copied: Path -> bool,
    bwrap: bool,
    resolv: Option<Path>,
    projects: seq<string>,
    xdg: Path)

  /** The arguments; an empty string in a list of paths is an absent one. */
  datatype Config = Config(
    repo: Path,
    work: Path,
    state: Path,
    home: Path,
    extraRo: seq<Option<Path>>,
    extraRw: seq<Option<Path>>,
    proxy: Option<Path>,
    credentials: bool,
    nodePin: Option<Path>)

  // ----- the sections of the table

  const TMP: Path := ["tmp"]
  const X11: Path := ["tmp", ".X11-unix"]
  const NULL_DEVICE: Path := ["dev", "null"]
  const SYSTEM: seq<Path> := [["usr"], ["bin"], ["sbin"], ["lib"], ["lib32"], ["lib64"], ["etc"], ["opt"]]
  const XDG_SUBS: seq<string> := ["bus", "keyring", "pulse", "pipewire-0"]

  /** The paths of a list that exist, bound in order. */
  function Binds(h: Host, kind: Kind, ps: seq<Option<Path>>): seq<Mount> {
    if ps == [] then []
    else
      var n := |ps| - 1;
      Binds(h, kind, ps[..n]) + if ps[n].Some? && h.exists_(ps[n].value) then [Bind(kind, ps[n].value)] else []
  }

  function Somes(ps: seq<Path>): seq<Option<Path>> {
    seq(|ps|, i requires 0 <= i < |ps| => Some(ps[i]))
  }

  /** The directory of the resolved resolver file, unless it is below /etc by name. */
  function ResolverMount(h: Host): seq<Mount> {
    if h.resolv.None? || h.resolv.value == [] || !h.exists_(h.resolv.value) then []
    else
      var dir := h.resolv.value[..|h.resolv.value| - 1];
      if (dir == [] || !("etc" <= dir[0])) && h.exists_(dir) then [Bind(Ro, dir)] else []
  }

  function Sub(p: Path, name: string): Path {
    p + [name]
  }

  function NodeMount(h: Host, c: Config): seq<Mount> {
    var nvm := Sub(c.home, ".nvm");
    if c.nodePin.Some? then
      if nvm < c.nodePin.value && h.isDir(c.nodePin.value) then [Bind(Ro, c.nodePin.value)] else []
    else if h.exists_(nvm) then [Bind(Ro, nvm)] else []
  }

  function Gemini(c: Config): Path {
    Sub(c.home, ".gemini")
  }

  function Claude(c: Config): Path {
    Sub(c.home, ".claude")
  }

  function ClaudeJson(c: Config): Path {
    Sub(c.home, ".claude.json")
  }

  function JsonCopy(c: Config): Path {
    Sub(c.work, ".claude.json.jail")
  }

  function ClaudeJsonMount(h: Host, c: Config): seq<Mount> {
    if !h.exists_(ClaudeJson(c)) then []
    else if h.copied(JsonCopy(c)) then [Mount(Rw, JsonCopy(c), ClaudeJson(c))]
    else [Bind(Ro, ClaudeJson(c))]
  }

  function Memory(c: Config, project: string): Path {
    Sub(Sub(Sub(Claude(c), "projects"), project), "memory")
  }

  function MemoryMounts(h: Host, c: Config, projects: seq<string>): seq<Mount> {
    if projects == [] then []
    else
      var n := |projects| - 1;
      MemoryMounts(h, c, projects[..n])
      + if h.isDir(Memory(c, projects[n])) then [Bind(Ro, Memory(c, projects[n]))] else []
  }

  /** The operator's settings that steer later sessions. */
  function Sensitive(c: Config): seq<Path> {
    [ Sub(Claude(c), "settings.json"), Sub(Claude(c), "settings.local.json"), Sub(Claude(c), "skills"),
      Sub(Claude(c), "plugins"), Sub(Gemini(c), "GEMINI.md"), Sub(Gemini(c), "config")]
  }

  /** A read-only overlay, or the null device over a path that is not there yet. */
  function Overlay(h: Host, p: Path): seq<Mount> {
    if h.exists_(p) then [Bind(Ro, p)]
    else if p != [] && h.isDir(p[..|p| - 1]) then [Mount(Ro, NULL_DEVICE, p)]
    else []
  }

  function Overlays(h: Host, ps: seq<Path>): seq<Mount> {
    if ps == [] then [] else Overlays(h, ps[..|ps| - 1]) + Overlay(h, ps[|ps| - 1])
  }

  function GeminiProjects(c: Config): Path {
    Sub(Sub(Gemini(c), "config"), "projects")
  }

  function ProjectsMount(h: Host, c: Config): seq<Mount> {
    if h.isDir(GeminiProjects(c)) then [Bind(Rw, GeminiProjects(c))] else []
  }

  function XdgMount(h: Host, c: Config, name: string): seq<Mount> {
    var p := Sub(h.xdg, name);
    if name == "keyring" && !c.credentials then []
    else if name == "bus" && c.proxy.Some? then [Mount(Rw, c.proxy.value, p)]
    else if h.exists_(p) then [Bind(Rw, p)]
    else []
  }

  function XdgSubs(h: Host, c: Config, names: seq<string>): seq<Mount> {
    if names == [] then [] else XdgSubs(h, c, names[..|names| - 1]) + XdgMount(h, c, names[|names| - 1])
  }

  function XdgMounts(h: Host, c: Config): seq<Mount> {
    if h.isDir(h.xdg) then [Mount(Tmpfs, [], h.xdg)] + XdgSubs(h, c, XDG_SUBS) else []
  }

  /** The home lies strictly under the repository. */
  predicate HomeInside(c: Config) {
    c.repo != [] && c.repo < c.home
  }

  function Recarved(h: Host, c: Config): seq<Mount> {
    if !c.credentials || !HomeInside(c) then []
    else
      (if h.isDir(Gemini(c)) then [Bind(Rw, Gemini(c))] else [])
      + (if h.isDir(Claude(c)) then [Bind(Rw, Claude(c))] else [])
  }

  function Sessions(c: Config): Path {
    Sub(c.state, "sessions")
  }

  function PlanningSessions(c: Config): Path {
    Sub(Sub(c.state, "planning"), "sessions")
  }

  function StateMounts(h: Host, c: Config): seq<Mount> {
    if !h.exists_(c.state) then []
    else
      [Bind(Ro, c.state)]
      + (if h.made(Sessions(c)) then [Bind(Rw, Sessions(c))] else [])
      + (if h.made(PlanningSessions(c)) then [Bind(Rw, PlanningSessions(c))] else [])
  }

  /** The mounts before the credentials: system, extra paths, node. */
  function BaseMounts(h: Host, c: Config): seq<Mount> {
    [Mount(Proc, [], ["proc"]), Mount(Dev, [], ["dev"]), Mount(Tmpfs, [], TMP)]
    + Binds(h, Ro, [Some(X11)])
    + Binds(h, Ro, Somes(SYSTEM))
    + ResolverMount(h)
    + Binds(h, Ro, c.extraRo)
    + Binds(h, Rw, c.extraRw)
    + NodeMount(h, c)
  }

  /** The writable home of the credentials. */
  function CredentialMounts(h: Host, c: Config): seq<Mount> {
    if !c.credentials then []
    else
      Binds(h, Rw, [Some(Gemini(c)), Some(Claude(c))])
      + ClaudeJsonMount(h, c)
  }

  /** The protection of the operator's memory and settings. */
  function ProtectMounts(h: Host, c: Config): seq<Mount> {
    if !c.credentials then []
    else
      (if h.isDir(Sub(Claude(c), "projects")) then MemoryMounts(h, c, h.projects) else [])
      + Overlays(h, Sensitive(c))
  }

  /** What follows the protection, up to the repository. */
  function RuntimeMounts(h: Host, c: Config): seq<Mount> {
    (if c.credentials then ProjectsMount(h, c) else []) + XdgMounts(h, c)
  }

  function FinalMounts(h: Host, c: Config): seq<Mount> {
    [Bind(Ro, c.repo)] + Recarved(h, c) + StateMounts(h, c) + [Bind(Rw, c.work)]
  }

  function Mounts(h: Host, c: Config): seq<Mount> {
    BaseMounts(h, c) + CredentialMounts(h, c) + ProtectMounts(h, c) + RuntimeMounts(h, c) + FinalMounts(h, c)
  }

  // ----- the builder

  /** Appends a bind of every path that exists. */
  method AddBinds(h: Host, argv: seq<Mount>, kind: Kind, ps: seq<Option<Path>>) returns (grown: seq<Mount>)
    ensures grown == argv + Binds(h, kind, ps)
  {
    grown := argv;
    for i := 0 to |ps|
      invariant grown == argv + Binds(h, kind, ps[..i])
    {
      assert ps[..i + 1][..i] == ps[..i];
      if ps[i].Some? && h.exists_(ps[i].value) {
        grown := grown + [Bind(kind, ps[i].value)];
      }
    }
    assert ps[..|ps|] == ps;
  }

  method AddMemory(h: Host, c: Config, argv: seq<Mount>) returns (grown: seq<Mount>)
    ensures grown == argv + MemoryMounts(h, c, h.projects)
  {
    grown := argv;
    for i := 0 to |h.projects|
      invariant grown == argv + MemoryMounts(h, c, h.projects[..i])
    {
      assert h.projects[..i + 1][..i] == h.projects[..i];
      var mem := Memory(c, h.projects[i]);
      if h.isDir(mem) {
        grown := grown + [Bind(Ro, mem)];
      }
    }
    assert h.projects[..|h.projects|] == h.projects;
  }

  method AddOverlays(h: Host, argv: seq<Mount>, ps: seq<Path>) returns (grown: seq<Mount>)
    requires forall i | 0 <= i < |ps| :: ps[i] != []
    ensures grown == argv + Overlays(h, ps)
  {
    grown := argv;
    for i := 0 to |ps|
      invariant grown == argv + Overlays(h, ps[..i])
    {
      assert ps[..i + 1][..i] == ps[..i];
      if h.exists_(ps[i]) {
        grown := grown + [Bind(Ro, ps[i])];
      } else if h.isDir(ps[i][..|ps[i]| - 1]) {
        grown := grown + [Mount(Ro, NULL_DEVICE, ps[i])];
      }
    }
    assert ps[..|ps|] == ps;
  }

  method AddXdg(h: Host, c: Config, argv: seq<Mount>) returns (grown: seq<Mount>)
    ensures grown == argv + XdgMounts(h, c)
  {
    grown := argv;
    if !h.isDir(h.xdg) {
      return;
    }
    grown := grown + [Mount(Tmpfs, [], h.xdg)];
    for i := 0 to |XDG_SUBS|
      invariant grown == argv + [Mount(Tmpfs, [], h.xdg)] + XdgSubs(h, c, XDG_SUBS[..i])
    {
      assert XDG_SUBS[..i + 1][..i] == XDG_SUBS[..i];
      var name := XDG_SUBS[i];
      var p := Sub(h.xdg, name);
      if name == "keyring" && !c.credentials {
        continue;
      }
      if name == "bus" && c.proxy.Some? {
        grown := grown + [Mount(Rw, c.proxy.value, p)];
      } else if h.exists_(p) {
        grown := grown + [Bind(Rw, p)];
      }
    }
    assert XDG_SUBS[..|XDG_SUBS|] == XDG_SUBS;
  }

  /** The first part of the builder. */
  method StartMounts(h: Host, c: Config) returns (argv: seq<Mount>)
    ensures argv == BaseMounts(h, c)
  {
    hide Binds, NodeMount, ResolverMount;
    argv := [Mount(Proc, [], ["proc"]), Mount(Dev, [], ["dev"]), Mount(Tmpfs, [], TMP)];
    argv := AddBinds(h, argv, Ro, [Some(X11)]);
    argv := AddBinds(h, argv, Ro, Somes(SYSTEM));
    argv := argv + ResolverMount(h);
    argv := AddBinds(h, argv, Ro, c.extraRo);
    argv := AddBinds(h, argv, Rw, c.extraRw);
    argv := argv + NodeMount(h, c);
  }

  /** The part of the builder that needs the credentials. */
  method AddCredentials(h: Host, c: Config, argv: seq<Mount>) returns (grown: seq<Mount>)
    ensures grown == argv + CredentialMounts(h, c) + ProtectMounts(h, c)
                     + if c.credentials then ProjectsMount(h, c) else []
  {
    hide Binds, ClaudeJsonMount, MemoryMounts, Overlays, ProjectsMount, Sensitive;
    grown := argv;
    if c.credentials {
      SensitiveNonempty(c);
      grown := AddBinds(h, grown, Rw, [Some(Gemini(c)), Some(Claude(c))]);
      grown := grown + ClaudeJsonMount(h, c);
      assert grown == argv + CredentialMounts(h, c);
      if h.isDir(Sub(Claude(c), "projects")) {
        grown := AddMemory(h, c, grown);
      }
      grown := AddOverlays(h, grown, Sensitive(c));
      assert grown == argv + CredentialMounts(h, c) + ProtectMounts(h, c);
      grown := grown + ProjectsMount(h, c);
    }
  }

  lemma SensitiveNonempty(c: Config)
    ensures forall i | 0 <= i < |Sensitive(c)| :: Sensitive(c)[i] != []
  {
  }

  /** `build_jail_argv`, of which only the mounts are kept; absent if bwrap is not found. */
  method BuildMounts(h: Host, c: Config) returns (r: Option<seq<Mount>>)
    ensures r == if h.bwrap then Some(Mounts(h, c)) else None
  {
    hide BaseMounts, CredentialMounts, ProtectMounts, ProjectsMount, XdgMounts, Recarved, StateMounts;
    if !h.bwrap {
      return None;
    }
    var argv := StartMounts(h, c);
    argv := AddCredentials(h, c, argv);
    argv := AddXdg(h, c, argv);
    ghost var before := argv;
    assert before == BaseMounts(h, c) + CredentialMounts(h, c) + ProtectMounts(h, c) + RuntimeMounts(h, c);
    argv := argv + [Bind(Ro, c.repo)];
    argv := argv + Recarved(h, c);
    argv := argv + StateMounts(h, c);
    argv := argv + [Bind(Rw, c.work)];
    assert argv == before + FinalMounts(h, c);
    return Some(argv);
  }

  // ----- resolution

  lemma {:induction false} EffectiveConcat(a: seq<Mount>, b: seq<Mount>, x: Path)
    ensures Effective(a + b, x) == if Effective(b, x).Some? then Effective(b, x) else Effective(a, x)
  {
    if b == [] {
      assert a + b == a;
    } else {
      var n := |b| - 1;
      assert (a + b)[..|a| + n] == a + b[..n];
      EffectiveConcat(a, b[..n], x);
    }
  }

  lemma EffectiveOne(m: Mount, x: Path)
    ensures Effective([m], x) == if Covers(m.target, x) then Some(m) else None
  {
    assert [m][..0] == [];
  }

  /** One or no mount. */
  lemma EffectiveIf(b: bool, m: Mount, x: Path)
    ensures Effective(if b then [m] else [], x) == if b && Covers(m.target, x) then Some(m) else None
  {
    EffectiveOne(m, x);
  }

  /** Below a home inside the repository: one of the two directories bound again. */
  predicate UnderRecarved(h: Host, c: Config, x: Path) {
    c.credentials && HomeInside(c)
    && ((h.isDir(Gemini(c)) && Covers(Gemini(c), x)) || (h.isDir(Claude(c)) && Covers(Claude(c), x)))
  }

  predicate UnderSessions(h: Host, c: Config, x: Path) {
    h.exists_(c.state)
    && ((h.made(Sessions(c)) && Covers(Sessions(c), x))
        || (h.made(PlanningSessions(c)) && Covers(PlanningSessions(c), x)))
  }

  lemma RecarvedMode(h: Host, c: Config, x: Path)
    ensures Effective(Recarved(h, c), x).Some? <==> UnderRecarved(h, c, x)
    ensures Effective(Recarved(h, c), x).Some? ==> Effective(Recarved(h, c), x).value.kind == Rw
  {
    var a := if h.isDir(Gemini(c)) then [Bind(Rw, Gemini(c))] else [];
    var b := if h.isDir(Claude(c)) then [Bind(Rw, Claude(c))] else [];
    EffectiveIf(h.isDir(Gemini(c)), Bind(Rw, Gemini(c)), x);
    EffectiveIf(h.isDir(Claude(c)), Bind(Rw, Claude(c)), x);
    EffectiveConcat(a, b, x);
  }

  lemma StateMode(h: Host, c: Config, x: Path)
    ensures Effective(StateMounts(h, c), x).Some? <==> h.exists_(c.state) && Covers(c.state, x)
    ensures Effective(StateMounts(h, c), x).Some? ==>
              Effective(StateMounts(h, c), x).value.kind == if UnderSessions(h, c, x) then Rw else Ro
  {
    var a := [Bind(Ro, c.state)];
    var b := if h.made(Sessions(c)) then [Bind(Rw, Sessions(c))] else [];
    var d := if h.made(PlanningSessions(c)) then [Bind(Rw, PlanningSessions(c))] else [];
    EffectiveOne(Bind(Ro, c.state), x);
    EffectiveIf(h.made(Sessions(c)), Bind(Rw, Sessions(c)), x);
    EffectiveIf(h.made(PlanningSessions(c)), Bind(Rw, PlanningSessions(c)), x);
    EffectiveConcat(a, b, x);
    EffectiveConcat(a + b, d, x);
    SubCovers(c.state, "sessions", x);
    SubCovers(c.state, "planning", x);
    SubCovers(Sub(c.state, "planning"), "sessions", x);
  }

  lemma SubCovers(p: Path, name: string, x: Path)
    ensures Covers(Sub(p, name), x) ==> Covers(p, x)
  {
    if Sub(p, name) <= x {
      assert p == Sub(p, name)[..|p|] == x[..|p|];
    }
  }

  /** The repository is read-only: a path at or below its root is writable exactly if it is
      at or below the work directory, a session directory of the state, or a directory of
      a home inside the repository that is bound again and not hidden by the state; and
      every other one resolves to a read-only bind. */
  lemma RepositoryReadOnly(h: Host, c: Config, x: Path)
    requires Covers(c.repo, x)
    ensures Writable(Mounts(h, c), x)
       <==> || Covers(c.work, x)
            || UnderSessions(h, c, x)
            || (UnderRecarved(h, c, x) && !(h.exists_(c.state) && Covers(c.state, x)))
    ensures Writable(Mounts(h, c), x) || ReadOnly(Mounts(h, c), x)
  {
    hide BaseMounts, CredentialMounts, ProtectMounts, RuntimeMounts, Recarved, StateMounts;
    var before := BaseMounts(h, c) + CredentialMounts(h, c) + ProtectMounts(h, c) + RuntimeMounts(h, c);
    var repo, recarved, state, work := [Bind(Ro, c.repo)], Recarved(h, c), StateMounts(h, c), [Bind(Rw, c.work)];
    EffectiveOne(Bind(Ro, c.repo), x);
    EffectiveOne(Bind(Rw, c.work), x);
    RecarvedMode(h, c, x);
    StateMode(h, c, x);
    SessionsInState(h, c, x);
    EffectiveConcat(repo, recarved, x);
    EffectiveConcat(repo + recarved, state, x);
    EffectiveConcat(repo + recarved + state, work, x);
    EffectiveConcat(before, FinalMounts(h, c), x);
  }

  lemma SessionsInState(h: Host, c: Config, x: Path)
    ensures UnderSessions(h, c, x) ==> Covers(c.state, x)
  {
    SubCovers(c.state, "sessions", x);
    SubCovers(c.state, "planning", x);
    SubCovers(Sub(c.state, "planning"), "sessions", x);
  }

  // ----- the operator's settings

  lemma {:induction false} OverlaysReadOnly(h: Host, ps: seq<Path>, i: nat, x: Path)
    requires i < |ps| && Covers(ps[i], x) && Overlay(h, ps[i]) != []
    ensures ReadOnly(Overlays(h, ps), x)
  {
    hide Covers, Overlay;
    var n := |ps| - 1;
    EffectiveConcat(Overlays(h, ps[..n]), Overlay(h, ps[n]), x);
    OverlayMode(h, ps[n], x);
    if i < n { OverlaysReadOnly(h, ps[..n], i, x); }
  }

  lemma OverlayMode(h: Host, p: Path, x: Path)
    ensures Effective(Overlay(h, p), x).Some? <==> Overlay(h, p) != [] && Covers(p, x)
    ensures Effective(Overlay(h, p), x).Some? ==> Effective(Overlay(h, p), x).value.kind == Ro
  {
    EffectiveOne(Bind(Ro, p), x);
    EffectiveOne(Mount(Ro, NULL_DEVICE, p), x);
  }

  /** What a writable path below a protected one must lie under. */
  predicate Carved(h: Host, c: Config, x: Path) {
    || Covers(GeminiProjects(c), x)
    || Covers(h.xdg, x)
    || UnderRecarved(h, c, x)
    || UnderSessions(h, c, x)
    || Covers(c.work, x)
  }

  lemma {:induction false} XdgBelow(h: Host, c: Config, names: seq<string>, x: Path)
    ensures Effective(XdgSubs(h, c, names), x).Some? ==> Covers(h.xdg, x)
  {
    if names != [] {
      var n := |names| - 1;
      XdgBelow(h, c, names[..n], x);
      EffectiveConcat(XdgSubs(h, c, names[..n]), XdgMount(h, c, names[n]), x);
      XdgOne(h, c, names[n], x);
    }
  }

  lemma XdgOne(h: Host, c: Config, name: string, x: Path)
    ensures Effective(XdgMount(h, c, name), x).Some? ==> Covers(h.xdg, x)
  {
    var p := Sub(h.xdg, name);
    SubCovers(h.xdg, name, x);
    EffectiveOne(Bind(Rw, p), x);
    if c.proxy.Some? { EffectiveOne(Mount(Rw, c.proxy.value, p), x); }
  }

  lemma RuntimeWritable(h: Host, c: Config, x: Path)
    ensures Effective(RuntimeMounts(h, c), x).Some? ==> Covers(GeminiProjects(c), x) || Covers(h.xdg, x)
  {
    var projects := if c.credentials then ProjectsMount(h, c) else [];
    EffectiveOne(Bind(Rw, GeminiProjects(c)), x);
    EffectiveConcat(projects, XdgMounts(h, c), x);
    EffectiveOne(Mount(Tmpfs, [], h.xdg), x);
    EffectiveConcat([Mount(Tmpfs, [], h.xdg)], XdgSubs(h, c, XDG_SUBS), x);
    XdgBelow(h, c, XDG_SUBS, x);
  }

  lemma FinalWritable(h: Host, c: Config, x: Path)
    ensures Writable(FinalMounts(h, c), x) ==> UnderRecarved(h, c, x) || UnderSessions(h, c, x) || Covers(c.work, x)
  {
    hide Recarved, StateMounts;
    var repo, recarved, state, work := [Bind(Ro, c.repo)], Recarved(h, c), StateMounts(h, c), [Bind(Rw, c.work)];
    EffectiveOne(Bind(Ro, c.repo), x);
    EffectiveOne(Bind(Rw, c.work), x);
    RecarvedMode(h, c, x);
    StateMode(h, c, x);
    EffectiveConcat(repo, recarved, x);
    EffectiveConcat(repo + recarved, state, x);
    EffectiveConcat(repo + recarved + state, work, x);
  }

  /** The operator's global settings stay read-only although their directories are bound
      writable: with the parent on the host, nothing at or below such a path is writable
      outside the directories carved out after it, whether the path exists or not. */
  lemma SettingsReadOnly(h: Host, c: Config, i: nat, x: Path)
    requires c.credentials && i < |Sensitive(c)| && Covers(Sensitive(c)[i], x)
    requires h.exists_(Sensitive(c)[i]) || h.isDir(Sensitive(c)[i][..|Sensitive(c)[i]| - 1])
    ensures Writable(Mounts(h, c), x) ==> Carved(h, c, x)
  {
    hide BaseMounts, CredentialMounts, RuntimeMounts, FinalMounts, MemoryMounts, Overlays, UnderRecarved,
        UnderSessions, Covers;
    var memory := if h.isDir(Sub(Claude(c), "projects")) then MemoryMounts(h, c, h.projects) else [];
    var before := BaseMounts(h, c) + CredentialMounts(h, c);
    OverlaysReadOnly(h, Sensitive(c), i, x);
    EffectiveConcat(memory, Overlays(h, Sensitive(c)), x);
    LaterCarves(h, c, before, ProtectMounts(h, c), x);
  }

  /** The same for the memory of each project. */
  lemma MemoryReadOnly(h: Host, c: Config, i: nat, x: Path)
    requires c.credentials && h.isDir(Sub(Claude(c), "projects"))
    requires i < |h.projects| && h.isDir(Memory(c, h.projects[i])) && Covers(Memory(c, h.projects[i]), x)
    ensures Writable(Mounts(h, c), x) ==> Carved(h, c, x)
  {
    hide BaseMounts, CredentialMounts, RuntimeMounts, FinalMounts, MemoryMounts, Overlays, UnderRecarved,
        UnderSessions, Covers;
    var memory := MemoryMounts(h, c, h.projects);
    var before := BaseMounts(h, c) + CredentialMounts(h, c);
    MemoryMode(h, c, h.projects, i, x);
    OverlaysMode(h, Sensitive(c), x);
    EffectiveConcat(memory, Overlays(h, Sensitive(c)), x);
    LaterCarves(h, c, before, ProtectMounts(h, c), x);
  }

  lemma {:induction false} OverlaysMode(h: Host, ps: seq<Path>, x: Path)
    ensures Effective(Overlays(h, ps), x).Some? ==> Effective(Overlays(h, ps), x).value.kind == Ro
  {
    if ps != [] {
      var n := |ps| - 1;
      OverlaysMode(h, ps[..n], x);
      EffectiveConcat(Overlays(h, ps[..n]), Overlay(h, ps[n]), x);
      OverlayMode(h, ps[n], x);
    }
  }

  lemma {:induction false} MemoryMode(h: Host, c: Config, projects: seq<string>, i: nat, x: Path)
    requires i < |projects| && h.isDir(Memory(c, projects[i])) && Covers(Memory(c, projects[i]), x)
    ensures ReadOnly(MemoryMounts(h, c, projects), x)
  {
    hide Memory, Covers;
    var n := |projects| - 1;
    var last := Memory(c, projects[n]);
    EffectiveIf(h.isDir(last), Bind(Ro, last), x);
    EffectiveConcat(MemoryMounts(h, c, projects[..n]), if h.isDir(last) then [Bind(Ro, last)] else [], x);
    if i < n { MemoryMode(h, c, projects[..n], i, x); }
  }

  /** After a read-only mount decides `x`, only what is carved out later is writable. */
  lemma LaterCarves(h: Host, c: Config, before: seq<Mount>, protect: seq<Mount>, x: Path)
    requires ReadOnly(protect, x) && before + protect + RuntimeMounts(h, c) + FinalMounts(h, c) == Mounts(h, c)
    ensures Writable(Mounts(h, c), x) ==> Carved(h, c, x)
  {
    hide RuntimeMounts, FinalMounts, Mounts, UnderRecarved, UnderSessions, Covers;
    EffectiveConcat(before, protect, x);
    EffectiveConcat(before + protect, RuntimeMounts(h, c), x);
    EffectiveConcat(before + protect + RuntimeMounts(h, c), FinalMounts(h, c), x);
    RuntimeWritable(h, c, x);
    FinalWritable(h, c, x);
  }

  lemma {:induction false} BindsMode(h: Host, kind: Kind, ps: seq<Option<Path>>, x: Path)
    ensures Effective(Binds(h, kind, ps), x).Some? ==>
              && Effective(Binds(h, kind, ps), x).value.kind == kind
              && exists i :: 0 <= i < |ps| && ps[i].Some? && Covers(ps[i].value, x)
  {
    if ps != [] {
      var n := |ps| - 1;
      BindsMode(h, kind, ps[..n], x);
      var last := if ps[n].Some? && h.exists_(ps[n].value) then [Bind(kind, ps[n].value)] else [];
      if ps[n].Some? { EffectiveOne(Bind(kind, ps[n].value), x); }
      EffectiveConcat(Binds(h, kind, ps[..n]), last, x);
      if Effective(Binds(h, kind, ps[..n]), x).Some? {
        var i :| 0 <= i < n && ps[..n][i].Some? && Covers(ps[..n][i].value, x);
        assert ps[i].Some? && Covers(ps[i].value, x);
      }
    }
  }

  ghost predicate UnderExtraRw(c: Config, x: Path) {
    exists i :: 0 <= i < |c.extraRw| && c.extraRw[i].Some? && Covers(c.extraRw[i].value, x)
  }

  /** A mount list of which no mount is a writable bind. */
  predicate NoneWritable(mounts: seq<Mount>) {
    forall i | 0 <= i < |mounts| :: mounts[i].kind != Rw
  }

  lemma {:induction false} NoneWritableMode(mounts: seq<Mount>, x: Path)
    requires NoneWritable(mounts)
    ensures !Writable(mounts, x)
  {
    if mounts != [] { NoneWritableMode(mounts[..|mounts| - 1], x); }
  }

  lemma BaseWritable(h: Host, c: Config, x: Path)
    ensures Writable(BaseMounts(h, c), x) ==> UnderExtraRw(c, x)
  {
    hide Binds, Covers;
    var first := [Mount(Proc, [], ["proc"]), Mount(Dev, [], ["dev"]), Mount(Tmpfs, [], TMP)];
    var x11, system, resolver := Binds(h, Ro, [Some(X11)]), Binds(h, Ro, Somes(SYSTEM)), ResolverMount(h);
    var ro, rw, node := Binds(h, Ro, c.extraRo), Binds(h, Rw, c.extraRw), NodeMount(h, c);
    NoneWritableMode(first, x);
    NoneWritableMode(resolver, x);
    NoneWritableMode(node, x);
    BindsMode(h, Ro, [Some(X11)], x);
    BindsMode(h, Ro, Somes(SYSTEM), x);
    BindsMode(h, Ro, c.extraRo, x);
    BindsMode(h, Rw, c.extraRw, x);
    EffectiveConcat(first, x11, x);
    EffectiveConcat(first + x11, system, x);
    EffectiveConcat(first + x11 + system, resolver, x);
    EffectiveConcat(first + x11 + system + resolver, ro, x);
    EffectiveConcat(first + x11 + system + resolver + ro, rw, x);
    EffectiveConcat(first + x11 + system + resolver + ro + rw, node, x);
  }

  /** On the execute path, without credentials, all that is writable lies below an allowed
      path, the runtime directory, a session directory of the state or the work directory;
      nothing of the home is, unless one of these lies there. */
  lemma ExecutePathWritable(h: Host, c: Config, x: Path)
    requires !c.credentials && Writable(Mounts(h, c), x)
    ensures UnderExtraRw(c, x) || Covers(h.xdg, x) || UnderSessions(h, c, x) || Covers(c.work, x)
  {
    hide BaseMounts, XdgMounts, FinalMounts, UnderSessions, UnderExtraRw, Covers;
    assert BaseMounts(h, c) + [] + [] == BaseMounts(h, c);
    EffectiveConcat(BaseMounts(h, c), RuntimeMounts(h, c), x);
    EffectiveConcat(BaseMounts(h, c) + RuntimeMounts(h, c), FinalMounts(h, c), x);
    BaseWritable(h, c, x);
    XdgCovers(h, c, x);
    FinalWritable(h, c, x);
  }

  lemma XdgCovers(h: Host, c: Config, x: Path)
    requires !c.credentials
    ensures Effective(RuntimeMounts(h, c), x).Some? ==> Covers(h.xdg, x)
  {
    assert RuntimeMounts(h, c) == XdgMounts(h, c);
    EffectiveOne(Mount(Tmpfs, [], h.xdg), x);
    EffectiveConcat([Mount(Tmpfs, [], h.xdg)], XdgSubs(h, c, XDG_SUBS), x);
    XdgBelow(h, c, XDG_SUBS, x);
  }
}
