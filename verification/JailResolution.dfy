/** What each path means in the jail: the mount that decides it, found from the path itself
    and not from the table, and the laws of the host files behind the mounts. */
module JailResolution {
  import opened Basics
  import opened JailMounts

  function Found(b: bool, m: Mount): Option<Mount> {
    if b then Some(m) else None
  }

  /** The first of two answers that is one. */
  function Or(a: Option<Mount>, b: Option<Mount>): Option<Mount> {
    if a.Some? then a else b
  }

  /** `x` lies at or below the entry `name` of the directory `p`. */
  predicate In(p: Path, name: string, x: Path) {
    p <= x && |p| < |x| && x[|p|] == name
  }

  /** The first `n` components of a path, bound to themselves. */
  function Upto(kind: Kind, x: Path, n: nat): Mount
    requires n <= |x|
  {
    Bind(kind, x[..n])
  }

  // ----- the end of the table

  /** In the work directory, the state directory, a home inside the repository, or the
      repository. */
  function InFinal(h: Host, c: Config, x: Path): Option<Mount> {
    if c.work <= x then Some(Bind(Rw, c.work))
    else if h.exists_(c.state) && c.state <= x then
      var n := |c.state|;
      if In(c.state, "sessions", x) && h.made(x[..n + 1]) then Some(Upto(Rw, x, n + 1))
      else if In(c.state, "planning", x) && In(x[..n + 1], "sessions", x) && h.made(x[..n + 2]) then
        Some(Upto(Rw, x, n + 2))
      else Some(Bind(Ro, c.state))
    else if c.credentials && c.repo != [] && c.repo < c.home
            && (In(c.home, ".gemini", x) || In(c.home, ".claude", x)) && h.isDir(x[..|c.home| + 1]) then
      Some(Upto(Rw, x, |c.home| + 1))
    else Found(c.repo <= x, Bind(Ro, c.repo))
  }

  /** In the runtime directory: a socket or directory that is let through, or the empty
      directory over it. */
  function InRuntime(h: Host, c: Config, x: Path): Option<Mount> {
    if !h.isDir(h.xdg) || !(h.xdg <= x) then None
    else if In(h.xdg, "bus", x) && c.proxy.Some? then Some(Mount(Rw, c.proxy.value, x[..|h.xdg| + 1]))
    else if (In(h.xdg, "bus", x) || In(h.xdg, "pulse", x) || In(h.xdg, "pipewire-0", x)
             || (In(h.xdg, "keyring", x) && c.credentials)) && h.exists_(x[..|h.xdg| + 1]) then
      Some(Upto(Rw, x, |h.xdg| + 1))
    else Some(Mount(Tmpfs, [], h.xdg))
  }

  /** The settings that steer the operator's later sessions. */
  predicate Setting(dir: string, name: string) {
    || (dir == ".claude" && name in ["settings.json", "settings.local.json", "skills", "plugins"])
    || (dir == ".gemini" && name in ["GEMINI.md", "config"])
  }

  /** In the home, with credentials: a directory of the settings that stays writable, a
      setting, the memory of a project, the configuration file, or one of the two
      directories. */
  function InHome(h: Host, c: Config, x: Path): Option<Mount> {
    var n := |c.home|;
    if !c.credentials || !(c.home <= x) || n == |x| then None
    else if n + 2 < |x| && x[n] == ".gemini" && x[n + 1] == "config" && x[n + 2] == "projects" && h.isDir(x[..n + 3])
    then Some(Upto(Rw, x, n + 3))
    else if n + 1 < |x| && Setting(x[n], x[n + 1]) && h.exists_(x[..n + 2]) then Some(Upto(Ro, x, n + 2))
    else if n + 1 < |x| && Setting(x[n], x[n + 1]) && h.isDir(x[..n + 1]) then
      Some(Mount(Ro, ["dev", "null"], x[..n + 2]))
    else if n + 3 < |x| && x[n] == ".claude" && x[n + 1] == "projects" && x[n + 3] == "memory"
            && x[n + 2] in h.projects && h.isDir(x[..n + 2]) && h.isDir(x[..n + 4]) then
      Some(Upto(Ro, x, n + 4))
    else if x[n] == ".claude.json" && h.exists_(x[..n + 1]) then
      Some(if h.copied(c.work + [".claude.json.jail"])
           then Mount(Rw, c.work + [".claude.json.jail"], x[..n + 1]) else Upto(Ro, x, n + 1))
    else Found((x[n] == ".claude" || x[n] == ".gemini") && h.exists_(x[..n + 1]), Upto(Rw, x, n + 1))
  }

  /** The last of a list of paths that is given, exists and covers `x`. */
  function LastOf(h: Host, kind: Kind, ps: seq<Option<Path>>, x: Path): Option<Mount> {
    if ps == [] then None
    else
      var p := ps[|ps| - 1];
      if p.Some? && h.exists_(p.value) && p.value <= x then Some(Bind(kind, p.value))
      else LastOf(h, kind, ps[..|ps| - 1], x)
  }

  /** In the node installation: the pinned part of it, or without a pin all of it. */
  function InNode(h: Host, c: Config, x: Path): Option<Mount> {
    match c.nodePin
    case Some(pin) => Found(c.home + [".nvm"] < pin && h.isDir(pin) && pin <= x, Bind(Ro, pin))
    case None => if In(c.home, ".nvm", x) && h.exists_(x[..|c.home| + 1]) then Some(Upto(Ro, x, |c.home| + 1)) else None
  }

  /** In the directory of the resolver's file, unless the name of its first component starts
      with etc. */
  function InResolver(h: Host, x: Path): Option<Mount> {
    if h.resolv.None? || h.resolv.value == [] then None
    else
      var dir := h.resolv.value[..|h.resolv.value| - 1];
      Found(h.exists_(h.resolv.value) && h.exists_(dir) && dir <= x && (dir == [] || !("etc" <= dir[0])), Bind(Ro, dir))
  }

  /** In a directory of the system, or one the jail makes itself. */
  function InSystem(h: Host, x: Path): Option<Mount> {
    if x == [] then None
    else if x[0] in ["usr", "bin", "sbin", "lib", "lib32", "lib64", "etc", "opt"] then
      Found(h.exists_([x[0]]), Bind(Ro, [x[0]]))
    else if ["tmp", ".X11-unix"] <= x && h.exists_(["tmp", ".X11-unix"]) then Some(Bind(Ro, ["tmp", ".X11-unix"]))
    else if x[0] == "tmp" then Some(Mount(Tmpfs, [], ["tmp"]))
    else if x[0] == "dev" then Some(Mount(Dev, [], ["dev"]))
    else Found(x[0] == "proc", Mount(Proc, [], ["proc"]))
  }

  /** The mount that decides a path. */
  function Decides(h: Host, c: Config, x: Path): Option<Mount> {
    Or(InFinal(h, c, x),
       Or(InRuntime(h, c, x),
          Or(InHome(h, c, x),
             Or(InNode(h, c, x),
                Or(LastOf(h, Rw, c.extraRw, x),
                   Or(LastOf(h, Ro, c.extraRo, x),
                      Or(InResolver(h, x), InSystem(h, x))))))))
  }

  // ----- the table decides as the path does

  lemma SubIn(p: Path, name: string, x: Path)
    ensures Sub(p, name) <= x <==> In(p, name, x)
    ensures In(p, name, x) ==> x[..|p| + 1] == Sub(p, name)
  {
    if In(p, name, x) {
      assert x[..|p| + 1] == x[..|p|] + [x[|p|]];
    }
  }

  lemma FinalDecides(h: Host, c: Config, x: Path)
    ensures Effective(FinalMounts(h, c), x) == InFinal(h, c, x)
  {
    hide Recarved, StateMounts;
    var repo, recarved, state, work := [Bind(Ro, c.repo)], Recarved(h, c), StateMounts(h, c), [Bind(Rw, c.work)];
    EffectiveOne(Bind(Ro, c.repo), x);
    EffectiveOne(Bind(Rw, c.work), x);
    RecarvedDecides(h, c, x);
    StateDecides(h, c, x);
    EffectiveConcat(repo, recarved, x);
    EffectiveConcat(repo + recarved, state, x);
    EffectiveConcat(repo + recarved + state, work, x);
    if c.repo < c.home && c.home <= x {
      assert c.repo <= x;
    }
  }

  lemma RecarvedDecides(h: Host, c: Config, x: Path)
    ensures Effective(Recarved(h, c), x)
         == if c.credentials && c.repo != [] && c.repo < c.home
               && (In(c.home, ".gemini", x) || In(c.home, ".claude", x)) && h.isDir(x[..|c.home| + 1])
            then Some(Upto(Rw, x, |c.home| + 1)) else None
  {
    var a := if h.isDir(Gemini(c)) then [Bind(Rw, Gemini(c))] else [];
    var b := if h.isDir(Claude(c)) then [Bind(Rw, Claude(c))] else [];
    EffectiveIf(h.isDir(Gemini(c)), Bind(Rw, Gemini(c)), x);
    EffectiveIf(h.isDir(Claude(c)), Bind(Rw, Claude(c)), x);
    EffectiveConcat(a, b, x);
    SubIn(c.home, ".gemini", x);
    SubIn(c.home, ".claude", x);
  }

  lemma StateDecides(h: Host, c: Config, x: Path)
    ensures Effective(StateMounts(h, c), x)
         == if !h.exists_(c.state) || !(c.state <= x) then None
            else if In(c.state, "sessions", x) && h.made(x[..|c.state| + 1]) then Some(Upto(Rw, x, |c.state| + 1))
            else if In(c.state, "planning", x) && In(x[..|c.state| + 1], "sessions", x) && h.made(x[..|c.state| + 2])
            then Some(Upto(Rw, x, |c.state| + 2))
            else Some(Bind(Ro, c.state))
  {
    var a := [Bind(Ro, c.state)];
    var b := if h.made(Sessions(c)) then [Bind(Rw, Sessions(c))] else [];
    var d := if h.made(PlanningSessions(c)) then [Bind(Rw, PlanningSessions(c))] else [];
    EffectiveOne(Bind(Ro, c.state), x);
    EffectiveIf(h.made(Sessions(c)), Bind(Rw, Sessions(c)), x);
    EffectiveIf(h.made(PlanningSessions(c)), Bind(Rw, PlanningSessions(c)), x);
    EffectiveConcat(a, b, x);
    EffectiveConcat(a + b, d, x);
    SubIn(c.state, "sessions", x);
    SubIn(c.state, "planning", x);
    SubIn(Sub(c.state, "planning"), "sessions", x);
  }

  lemma XdgOneDecides(h: Host, c: Config, name: string, x: Path)
    ensures Effective(XdgMount(h, c, name), x)
         == if !In(h.xdg, name, x) || (name == "keyring" && !c.credentials) then None
            else if name == "bus" && c.proxy.Some? then Some(Mount(Rw, c.proxy.value, x[..|h.xdg| + 1]))
            else Found(h.exists_(x[..|h.xdg| + 1]), Upto(Rw, x, |h.xdg| + 1))
  {
    var p := Sub(h.xdg, name);
    SubIn(h.xdg, name, x);
    EffectiveOne(Bind(Rw, p), x);
    if c.proxy.Some? { EffectiveOne(Mount(Rw, c.proxy.value, p), x); }
  }

  lemma RuntimeDecides(h: Host, c: Config, x: Path)
    ensures Effective(XdgMounts(h, c), x) == InRuntime(h, c, x)
  {
    hide XdgMount;
    var a, b, d, e := XdgMount(h, c, "bus"), XdgMount(h, c, "keyring"), XdgMount(h, c, "pulse"),
        XdgMount(h, c, "pipewire-0");
    XdgSubsAre(h, c);
    XdgOneDecides(h, c, "bus", x);
    XdgOneDecides(h, c, "keyring", x);
    XdgOneDecides(h, c, "pulse", x);
    XdgOneDecides(h, c, "pipewire-0", x);
    EffectiveConcat(a, b, x);
    EffectiveConcat(a + b, d, x);
    EffectiveConcat(a + b + d, e, x);
    EffectiveOne(Mount(Tmpfs, [], h.xdg), x);
    EffectiveConcat([Mount(Tmpfs, [], h.xdg)], XdgSubs(h, c, XDG_SUBS), x);
  }

  lemma XdgSubsSnoc(h: Host, c: Config, names: seq<string>, name: string)
    ensures XdgSubs(h, c, names + [name]) == XdgSubs(h, c, names) + XdgMount(h, c, name)
  {
    hide XdgMount;
    assert (names + [name])[..|names|] == names;
  }

  lemma XdgSubsAre(h: Host, c: Config)
    ensures XdgSubs(h, c, XDG_SUBS)
         == XdgMount(h, c, "bus") + XdgMount(h, c, "keyring") + XdgMount(h, c, "pulse") + XdgMount(h, c, "pipewire-0")
  {
    XdgSubsSnoc(h, c, [], "bus");
    XdgSubsSnoc(h, c, ["bus"], "keyring");
    XdgSubsSnoc(h, c, ["bus", "keyring"], "pulse");
    XdgSubsSnoc(h, c, ["bus", "keyring", "pulse"], "pipewire-0");
    assert XdgSubs(h, c, []) == [];
    hide XdgMount, XdgSubs;
    assert [] + ["bus"] == ["bus"] && ["bus"] + ["keyring"] == ["bus", "keyring"];
    assert ["bus", "keyring"] + ["pulse"] == ["bus", "keyring", "pulse"];
    assert ["bus", "keyring", "pulse"] + ["pipewire-0"] == XDG_SUBS;
    assert [] + XdgMount(h, c, "bus") == XdgMount(h, c, "bus");
  }

  // ----- the home

  lemma OverlayDecides(h: Host, dir: Path, name: string, x: Path)
    ensures Effective(Overlay(h, Sub(dir, name)), x)
         == if !In(dir, name, x) then None
            else if h.exists_(x[..|dir| + 1]) then Some(Upto(Ro, x, |dir| + 1))
            else Found(h.isDir(dir), Mount(Ro, ["dev", "null"], x[..|dir| + 1]))
  {
    var p := Sub(dir, name);
    SubIn(dir, name, x);
    assert p[..|p| - 1] == dir;
    EffectiveOne(Bind(Ro, p), x);
    EffectiveOne(Mount(Ro, NULL_DEVICE, p), x);
  }

  /** A setting's overlay, seen from a path in the home. */
  lemma SettingDecides(h: Host, c: Config, dir: string, name: string, x: Path)
    ensures var n := |c.home|;
            Effective(Overlay(h, Sub(Sub(c.home, dir), name)), x)
            == if !(c.home <= x && n + 1 < |x| && x[n] == dir && x[n + 1] == name) then None
               else if h.exists_(x[..n + 2]) then Some(Upto(Ro, x, n + 2))
               else Found(h.isDir(x[..n + 1]), Mount(Ro, ["dev", "null"], x[..n + 2]))
  {
    OverlayDecides(h, Sub(c.home, dir), name, x);
    SubIn(c.home, dir, x);
  }

  lemma OverlaysSnoc(h: Host, ps: seq<Path>, p: Path)
    ensures Overlays(h, ps + [p]) == Overlays(h, ps) + Overlay(h, p)
  {
    hide Overlay;
    assert (ps + [p])[..|ps|] == ps;
  }

  lemma OverlaysNext(h: Host, ps: seq<Path>, p: Path, x: Path)
    ensures Effective(Overlays(h, ps + [p]), x) == Or(Effective(Overlay(h, p), x), Effective(Overlays(h, ps), x))
  {
    OverlaysSnoc(h, ps, p);
    EffectiveConcat(Overlays(h, ps), Overlay(h, p), x);
  }

  lemma OverlaysDecide(h: Host, c: Config, x: Path)
    ensures var n := |c.home|;
            Effective(Overlays(h, Sensitive(c)), x)
            == if !(c.home <= x && n + 1 < |x| && Setting(x[n], x[n + 1])) then None
               else if h.exists_(x[..n + 2]) then Some(Upto(Ro, x, n + 2))
               else Found(h.isDir(x[..n + 1]), Mount(Ro, ["dev", "null"], x[..n + 2]))
  {
    hide Overlay, Effective;
    var s := Sensitive(c);
    var claude, gemini := Sub(c.home, ".claude"), Sub(c.home, ".gemini");
    SettingDecides(h, c, ".claude", "settings.json", x);
    SettingDecides(h, c, ".claude", "settings.local.json", x);
    SettingDecides(h, c, ".claude", "skills", x);
    SettingDecides(h, c, ".claude", "plugins", x);
    SettingDecides(h, c, ".gemini", "GEMINI.md", x);
    SettingDecides(h, c, ".gemini", "config", x);
    var a, b := [Sub(claude, "settings.json")], [Sub(claude, "settings.local.json")];
    OverlaysNext(h, [], s[0], x);
    OverlaysNext(h, s[..1], s[1], x);
    OverlaysNext(h, s[..2], s[2], x);
    OverlaysNext(h, s[..3], s[3], x);
    OverlaysNext(h, s[..4], s[4], x);
    OverlaysNext(h, s[..5], s[5], x);
    assert [] + [s[0]] == s[..1] && s[..1] + [s[1]] == s[..2] && s[..2] + [s[2]] == s[..3];
    assert s[..3] + [s[3]] == s[..4] && s[..4] + [s[4]] == s[..5] && s[..5] + [s[5]] == s;
    NoMount(x);
    assert Overlays(h, []) == [];
  }

  lemma MemoryIn(c: Config, project: string, x: Path)
    ensures var n := |c.home|;
            Memory(c, project) <= x
            <==> c.home <= x && n + 3 < |x| && x[n] == ".claude" && x[n + 1] == "projects" && x[n + 2] == project
                 && x[n + 3] == "memory"
    ensures Memory(c, project) <= x ==> x[..|c.home| + 4] == Memory(c, project)
  {
    var claude := Sub(c.home, ".claude");
    SubIn(c.home, ".claude", x);
    SubIn(claude, "projects", x);
    SubIn(Sub(claude, "projects"), project, x);
    SubIn(Sub(Sub(claude, "projects"), project), "memory", x);
  }

  lemma {:induction false} MemoryDecides(h: Host, c: Config, projects: seq<string>, x: Path)
    ensures var n := |c.home|;
            Effective(MemoryMounts(h, c, projects), x)
            == if c.home <= x && n + 3 < |x| && x[n] == ".claude" && x[n + 1] == "projects" && x[n + 3] == "memory"
                  && x[n + 2] in projects && h.isDir(x[..n + 4])
               then Some(Upto(Ro, x, n + 4)) else None
  {
    hide Memory, Effective;
    if projects == [] {
      NoMount(x);
    } else {
      var k := |projects| - 1;
      var last := Memory(c, projects[k]);
      var mounts := if h.isDir(last) then [Bind(Ro, last)] else [];
      MemoryDecides(h, c, projects[..k], x);
      MemoryIn(c, projects[k], x);
      EffectiveIf(h.isDir(last), Bind(Ro, last), x);
      EffectiveConcat(MemoryMounts(h, c, projects[..k]), mounts, x);
      assert MemoryMounts(h, c, projects) == MemoryMounts(h, c, projects[..k]) + mounts;
      hide MemoryMounts;
      assert projects == projects[..k] + [projects[k]];
    }
  }

  lemma {:induction false} BindsDecide(h: Host, kind: Kind, ps: seq<Option<Path>>, x: Path)
    ensures Effective(Binds(h, kind, ps), x) == LastOf(h, kind, ps, x)
  {
    if ps != [] {
      var n := |ps| - 1;
      BindsDecide(h, kind, ps[..n], x);
      var last := if ps[n].Some? && h.exists_(ps[n].value) then [Bind(kind, ps[n].value)] else [];
      if ps[n].Some? { EffectiveOne(Bind(kind, ps[n].value), x); }
      EffectiveConcat(Binds(h, kind, ps[..n]), last, x);
    }
  }

  lemma DirsDecide(h: Host, c: Config, x: Path)
    ensures var n := |c.home|;
            Effective(Binds(h, Rw, [Some(Gemini(c)), Some(Claude(c))]), x)
            == if (In(c.home, ".claude", x) || In(c.home, ".gemini", x)) && h.exists_(x[..n + 1])
               then Some(Upto(Rw, x, n + 1)) else None
  {
    BindsDecide(h, Rw, [Some(Gemini(c)), Some(Claude(c))], x);
    assert [Some(Gemini(c)), Some(Claude(c))][..1] == [Some(Gemini(c))];
    assert [Some(Gemini(c))][..0] == [];
    hide Binds, Effective;
    assert LastOf(h, Rw, [Some(Gemini(c))], x) == Found(h.exists_(Gemini(c)) && Gemini(c) <= x, Bind(Rw, Gemini(c)));
    SubIn(c.home, ".gemini", x);
    SubIn(c.home, ".claude", x);
  }

  lemma ClaudeJsonDecides(h: Host, c: Config, x: Path)
    ensures var n := |c.home|;
            Effective(ClaudeJsonMount(h, c), x)
            == if In(c.home, ".claude.json", x) && h.exists_(x[..n + 1]) then
                 Some(if h.copied(c.work + [".claude.json.jail"])
                      then Mount(Rw, c.work + [".claude.json.jail"], x[..n + 1]) else Upto(Ro, x, n + 1))
               else None
  {
    SubIn(c.home, ".claude.json", x);
    EffectiveOne(Mount(Rw, JsonCopy(c), ClaudeJson(c)), x);
    EffectiveOne(Bind(Ro, ClaudeJson(c)), x);
  }

  lemma CredentialDecides(h: Host, c: Config, x: Path)
    requires c.credentials
    ensures var n := |c.home|;
            Effective(CredentialMounts(h, c), x)
            == if !(c.home <= x && n < |x|) then None
               else if x[n] == ".claude.json" && h.exists_(x[..n + 1]) then
                 Some(if h.copied(c.work + [".claude.json.jail"])
                      then Mount(Rw, c.work + [".claude.json.jail"], x[..n + 1]) else Upto(Ro, x, n + 1))
               else Found((x[n] == ".claude" || x[n] == ".gemini") && h.exists_(x[..n + 1]), Upto(Rw, x, n + 1))
  {
    hide Binds, ClaudeJsonMount, Effective;
    DirsDecide(h, c, x);
    ClaudeJsonDecides(h, c, x);
    EffectiveConcat(Binds(h, Rw, [Some(Gemini(c)), Some(Claude(c))]), ClaudeJsonMount(h, c), x);
  }

  lemma ProjectsDecide(h: Host, c: Config, x: Path)
    ensures var n := |c.home|;
            Effective(ProjectsMount(h, c), x)
            == if c.home <= x && n + 2 < |x| && x[n] == ".gemini" && x[n + 1] == "config" && x[n + 2] == "projects"
                  && h.isDir(x[..n + 3])
               then Some(Upto(Rw, x, n + 3)) else None
  {
    EffectiveOne(Bind(Rw, GeminiProjects(c)), x);
    SubIn(c.home, ".gemini", x);
    SubIn(Gemini(c), "config", x);
    SubIn(Sub(Gemini(c), "config"), "projects", x);
  }

  lemma ProtectDecides(h: Host, c: Config, x: Path)
    requires c.credentials
    ensures var n := |c.home|;
            Effective(ProtectMounts(h, c), x)
            == Or(if !(c.home <= x && n + 1 < |x| && Setting(x[n], x[n + 1])) then None
                  else if h.exists_(x[..n + 2]) then Some(Upto(Ro, x, n + 2))
                  else Found(h.isDir(x[..n + 1]), Mount(Ro, ["dev", "null"], x[..n + 2])),
                  if c.home <= x && n + 3 < |x| && x[n] == ".claude" && x[n + 1] == "projects" && x[n + 3] == "memory"
                     && x[n + 2] in h.projects && h.isDir(x[..n + 2]) && h.isDir(x[..n + 4])
                  then Some(Upto(Ro, x, n + 4)) else None)
  {
    hide Overlays, MemoryMounts, Sensitive, Setting, Effective;
    var memory := if h.isDir(Sub(Claude(c), "projects")) then MemoryMounts(h, c, h.projects) else [];
    EffectiveConcat(memory, Overlays(h, Sensitive(c)), x);
    OverlaysDecide(h, c, x);
    MemoryDecides(h, c, h.projects, x);
    NoMount(x);
    SubIn(c.home, ".claude", x);
    SubIn(Claude(c), "projects", x);
  }

  lemma NoMount(x: Path)
    ensures Effective([], x) == None
  {
  }

  /** The three sections of the home. */
  lemma HomeDecides(h: Host, c: Config, x: Path)
    ensures Or(Effective(if c.credentials then ProjectsMount(h, c) else [], x),
               Or(Effective(ProtectMounts(h, c), x), Effective(CredentialMounts(h, c), x)))
         == InHome(h, c, x)
  {
    NoMount(x);
    if c.credentials {
      CredentialDecides(h, c, x);
      ProtectDecides(h, c, x);
      ProjectsDecide(h, c, x);
      hide Setting, ProtectMounts, CredentialMounts, ProjectsMount, Effective;
    }
  }

  // ----- the start of the table

  lemma NodeDecides(h: Host, c: Config, x: Path)
    ensures Effective(NodeMount(h, c), x) == InNode(h, c, x)
  {
    SubIn(c.home, ".nvm", x);
    EffectiveOne(Bind(Ro, Sub(c.home, ".nvm")), x);
    if c.nodePin.Some? { EffectiveOne(Bind(Ro, c.nodePin.value), x); }
  }

  lemma ResolverDecides(h: Host, x: Path)
    ensures Effective(ResolverMount(h), x) == InResolver(h, x)
  {
    if h.resolv.Some? && h.resolv.value != [] { EffectiveOne(Bind(Ro, h.resolv.value[..|h.resolv.value| - 1]), x); }
  }

  lemma LastOfSystem(h: Host, ps: seq<Path>, x: Path)
    requires forall i | 0 <= i < |ps| :: |ps[i]| == 1
    ensures LastOf(h, Ro, Somes(ps), x)
         == if x != [] && [x[0]] in ps && h.exists_([x[0]]) then Some(Bind(Ro, [x[0]])) else None
  {
    if ps != [] {
      var n := |ps| - 1;
      assert Somes(ps)[..n] == Somes(ps[..n]);
      LastOfSystem(h, ps[..n], x);
      assert ps == ps[..n] + [ps[n]];
      assert ps[n] == [ps[n][0]];
      assert ps[n] <= x <==> x != [] && [x[0]] == ps[n];
    }
  }

  lemma SystemDecides(h: Host, x: Path)
    ensures Effective([Mount(Proc, [], ["proc"]), Mount(Dev, [], ["dev"]), Mount(Tmpfs, [], TMP)]
                      + Binds(h, Ro, [Some(X11)]) + Binds(h, Ro, Somes(SYSTEM)), x)
         == InSystem(h, x)
  {
    hide Binds;
    var proc, dev, tmp := [Mount(Proc, [], ["proc"])], [Mount(Dev, [], ["dev"])], [Mount(Tmpfs, [], TMP)];
    var first := [Mount(Proc, [], ["proc"]), Mount(Dev, [], ["dev"]), Mount(Tmpfs, [], TMP)];
    EffectiveOne(proc[0], x);
    EffectiveOne(dev[0], x);
    EffectiveOne(tmp[0], x);
    EffectiveConcat(proc, dev, x);
    EffectiveConcat(proc + dev, tmp, x);
    assert first == proc + dev + tmp;
    BindsDecide(h, Ro, [Some(X11)], x);
    assert [Some(X11)][..0] == [];
    BindsDecide(h, Ro, Somes(SYSTEM), x);
    LastOfSystem(h, SYSTEM, x);
    EffectiveConcat(first, Binds(h, Ro, [Some(X11)]), x);
    EffectiveConcat(first + Binds(h, Ro, [Some(X11)]), Binds(h, Ro, Somes(SYSTEM)), x);
    hide Effective;
    assert x != [] ==> ([x[0]] in SYSTEM <==>
                          x[0] in ["usr", "bin", "sbin", "lib", "lib32", "lib64", "etc", "opt"]);
  }

  lemma BaseDecides(h: Host, c: Config, x: Path)
    ensures Effective(BaseMounts(h, c), x)
         == Or(InNode(h, c, x),
               Or(LastOf(h, Rw, c.extraRw, x),
                  Or(LastOf(h, Ro, c.extraRo, x), Or(InResolver(h, x), InSystem(h, x)))))
  {
    hide Binds, Effective, InNode, InResolver, InSystem, LastOf, ResolverMount, NodeMount;
    var system := [Mount(Proc, [], ["proc"]), Mount(Dev, [], ["dev"]), Mount(Tmpfs, [], TMP)]
        + Binds(h, Ro, [Some(X11)]) + Binds(h, Ro, Somes(SYSTEM));
    var resolver, ro, rw := ResolverMount(h), Binds(h, Ro, c.extraRo), Binds(h, Rw, c.extraRw);
    SystemDecides(h, x);
    ResolverDecides(h, x);
    BindsDecide(h, Ro, c.extraRo, x);
    BindsDecide(h, Rw, c.extraRw, x);
    NodeDecides(h, c, x);
    EffectiveConcat(system, resolver, x);
    EffectiveConcat(system + resolver, ro, x);
    EffectiveConcat(system + resolver + ro, rw, x);
    EffectiveConcat(system + resolver + ro + rw, NodeMount(h, c), x);
  }

  /** Whatever the host and the arguments, the mount that decides a path in the table is the
      one found from the path. */
  lemma TableDecides(h: Host, c: Config, x: Path)
    ensures Effective(Mounts(h, c), x) == Decides(h, c, x)
  {
    hide Effective, BaseMounts, CredentialMounts, ProtectMounts, ProjectsMount, XdgMounts, FinalMounts, InFinal,
      InRuntime, InHome, InNode, LastOf, InResolver, InSystem;
    var base, cred, protect := BaseMounts(h, c), CredentialMounts(h, c), ProtectMounts(h, c);
    var projects := if c.credentials then ProjectsMount(h, c) else [];
    BaseDecides(h, c, x);
    HomeDecides(h, c, x);
    RuntimeDecides(h, c, x);
    FinalDecides(h, c, x);
    EffectiveConcat(projects, XdgMounts(h, c), x);
    EffectiveConcat(base, cred, x);
    EffectiveConcat(base + cred, protect, x);
    EffectiveConcat(base + cred + protect, RuntimeMounts(h, c), x);
    EffectiveConcat(base + cred + protect + RuntimeMounts(h, c), FinalMounts(h, c), x);
  }

  // ----- the host files behind the mounts

  /** The host file that a path of the jail is, under the bind that decides it. */
  function HostFile(m: Mount, x: Path): Path
    requires |m.target| <= |x|
  {
    m.source + x[|m.target|..]
  }

  predicate IsBind(m: Mount) {
    m.kind == Ro || m.kind == Rw
  }

  /** A bind of a path that covers `x` to itself. */
  predicate Itself(m: Mount, x: Path) {
    m.source == m.target <= x
  }

  lemma {:induction false} LastOfItself(h: Host, kind: Kind, ps: seq<Option<Path>>, x: Path)
    ensures LastOf(h, kind, ps, x).Some? ==> Itself(LastOf(h, kind, ps, x).value, x)
  {
    if ps != [] { LastOfItself(h, kind, ps[..|ps| - 1], x); }
  }

  /** A bind of a path to itself, the null device over a setting, the throw-away
      configuration file or the bus of the proxy; or no bind. */
  predicate Accounted(h: Host, c: Config, m: Mount, x: Path) {
    && m.target <= x
    && (IsBind(m) ==>
          || Itself(m, x)
          || (m.kind == Ro && m.source == ["dev", "null"])
          || m == Mount(Rw, c.work + [".claude.json.jail"], c.home + [".claude.json"])
          || (c.proxy.Some? && m == Mount(Rw, c.proxy.value, h.xdg + ["bus"])))
  }

  lemma FinalAccounted(h: Host, c: Config, x: Path)
    ensures InFinal(h, c, x).Some? ==> Accounted(h, c, InFinal(h, c, x).value, x)
  {
  }

  lemma StartAccounted(h: Host, c: Config, x: Path)
    ensures InNode(h, c, x).Some? ==> Accounted(h, c, InNode(h, c, x).value, x)
    ensures InResolver(h, x).Some? ==> Accounted(h, c, InResolver(h, x).value, x)
    ensures InSystem(h, x).Some? ==> Accounted(h, c, InSystem(h, x).value, x)
  {
    assert x != [] ==> [x[0]] <= x;
  }

  lemma HomeAccounted(h: Host, c: Config, x: Path)
    ensures InHome(h, c, x).Some? ==> Accounted(h, c, InHome(h, c, x).value, x)
  {
    SubIn(c.home, ".claude.json", x);
  }

  lemma RuntimeAccounted(h: Host, c: Config, x: Path)
    ensures InRuntime(h, c, x).Some? ==> Accounted(h, c, InRuntime(h, c, x).value, x)
  {
    SubIn(h.xdg, "bus", x);
  }

  /** The mount that decides a path covers it, and a bound path is the host file of the same
      name, but for the null device over a setting, the throw-away configuration file and the
      bus of the proxy. */
  lemma BindsAreThemselves(h: Host, c: Config, x: Path)
    requires Effective(Mounts(h, c), x).Some?
    ensures var m := Effective(Mounts(h, c), x).value;
            Accounted(h, c, m, x) && (Itself(m, x) ==> HostFile(m, x) == x)
  {
    TableDecides(h, c, x);
    FinalAccounted(h, c, x);
    StartAccounted(h, c, x);
    LastOfItself(h, Rw, c.extraRw, x);
    LastOfItself(h, Ro, c.extraRo, x);
    RuntimeAccounted(h, c, x);
    HomeAccounted(h, c, x);
    hide Effective, Mounts, LastOf, InFinal, InRuntime, InHome, InNode, InResolver, InSystem;
    var m := Decides(h, c, x).value;
    assert Itself(m, x) ==> m.source + x[|m.target|..] == x;
  }

  /** No mount after those of the home covers `x`. */
  predicate Uncovered(h: Host, c: Config, x: Path) {
    !(c.work <= x) && !(h.exists_(c.state) && c.state <= x) && !(c.repo <= x) && !(h.isDir(h.xdg) && h.xdg <= x)
  }

  /** With the credentials the configuration file in the jail is the throw-away copy, or,
      when no copy could be made, the operator's own read-only. */
  lemma ClaudeJsonIsCopy(h: Host, c: Config)
    requires c.credentials && h.exists_(c.home + [".claude.json"]) && Uncovered(h, c, c.home + [".claude.json"])
    ensures var p := c.home + [".claude.json"];
            Effective(Mounts(h, c), p)
            == Some(if h.copied(c.work + [".claude.json.jail"]) then Mount(Rw, c.work + [".claude.json.jail"], p)
                    else Mount(Ro, p, p))
  {
    var p := c.home + [".claude.json"];
    TableDecides(h, c, p);
    hide Effective, Mounts;
    assert p[..|c.home| + 1] == p && p[..|c.home|] == c.home;
    assert InFinal(h, c, p) == None && InRuntime(h, c, p) == None;
  }

  /** So no writable path of the jail is the operator's own configuration file. */
  lemma ClaudeJsonUnwritten(h: Host, c: Config, x: Path)
    requires c.credentials && h.exists_(c.home + [".claude.json"]) && Uncovered(h, c, c.home + [".claude.json"])
    requires c.proxy.Some? ==> !(c.proxy.value <= c.home + [".claude.json"])
    requires Writable(Mounts(h, c), x)
    ensures Effective(Mounts(h, c), x).value.target <= x
    ensures HostFile(Effective(Mounts(h, c), x).value, x) != c.home + [".claude.json"]
  {
    var p := c.home + [".claude.json"];
    var m := Effective(Mounts(h, c), x).value;
    BindsAreThemselves(h, c, x);
    ClaudeJsonIsCopy(h, c);
    hide Effective, Mounts;
    if HostFile(m, x) == p {
      PrefixOfHostFile(m, x);
    }
  }

  lemma PrefixOfHostFile(m: Mount, x: Path)
    requires |m.target| <= |x|
    ensures m.source <= HostFile(m, x)
  {
  }

  /** With a proxy the bus in the jail is the proxy's socket. */
  lemma BusIsProxied(h: Host, c: Config)
    requires h.isDir(h.xdg) && c.proxy.Some?
    requires var bus := h.xdg + ["bus"]; !(c.work <= bus) && !(h.exists_(c.state) && c.state <= bus) && !(c.repo <= bus)
    ensures Effective(Mounts(h, c), h.xdg + ["bus"]) == Some(Mount(Rw, c.proxy.value, h.xdg + ["bus"]))
  {
    var bus := h.xdg + ["bus"];
    TableDecides(h, c, bus);
    hide Effective, Mounts;
    assert bus[..|h.xdg| + 1] == bus && bus[..|h.xdg|] == h.xdg;
    assert InFinal(h, c, bus) == None;
  }

  /** So no path of the jail is the host's own bus. */
  lemma HostBusUnreached(h: Host, c: Config, x: Path)
    requires h.isDir(h.xdg) && c.proxy.Some? && !(c.proxy.value <= h.xdg + ["bus"])
    requires var bus := h.xdg + ["bus"]; !(c.work <= bus) && !(h.exists_(c.state) && c.state <= bus) && !(c.repo <= bus)
    requires Effective(Mounts(h, c), x).Some? && IsBind(Effective(Mounts(h, c), x).value)
    requires Effective(Mounts(h, c), x).value.source != ["dev", "null"]
    ensures Effective(Mounts(h, c), x).value.target <= x
    ensures HostFile(Effective(Mounts(h, c), x).value, x) != h.xdg + ["bus"]
  {
    var bus := h.xdg + ["bus"];
    var m := Effective(Mounts(h, c), x).value;
    BindsAreThemselves(h, c, x);
    BusIsProxied(h, c);
    hide Effective, Mounts;
    if HostFile(m, x) == bus {
      PrefixOfHostFile(m, x);
    }
  }
}
