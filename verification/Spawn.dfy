/**
  How an agent is launched (agent.rs, AgentDescriptor): its environment and its command line.

  The daemon's own environment enters as the list of its variables, in order; what the manifest
  sets, scrubs and asserts enters with the descriptor. A later entry for the same name wins. The
  search for an executable on PATH is a parameter, and the login shell's command line is put
  together by the quoting of `ShellWords`, where it is shown to read back as the arguments.
 */
module AgentSpawn {
  import opened Common
  import opened ShellWords

  type Variable = (string, string)
  type Environment = seq<Variable>

  /** The part of a manifest that decides a launch. Its own `env` is a map: keys are distinct. */
  datatype Descriptor = Descriptor(
    binary: Option<string>, returnToLoginShell: bool, scrubPrefixes: seq<string>, env: Environment)
  {
    ghost predicate Ok() {
      forall i, j :: 0 <= i < j < |env| ==> env[i].0 != env[j].0
    }
  }

  datatype PtySpec = PtySpec(argv: seq<string>, env: Environment)

  predicate HasPrefix(prefixes: seq<string>, key: string) {
    exists i :: 0 <= i < |prefixes| && prefixes[i] <= key
  }

  /** Some prefix begins the key. */
  lemma HasPrefixMeans(prefixes: seq<string>, key: string)
    ensures HasPrefix(prefixes, key) <==> exists prefix, rest :: prefix in prefixes && key == prefix + rest
  {
    if HasPrefix(prefixes, key) {
      var i :| 0 <= i < |prefixes| && prefixes[i] <= key;
      assert key == prefixes[i] + key[|prefixes[i]|..];
    }
    if prefix, rest :| prefix in prefixes && key == prefix + rest {
      assert prefix <= key;
    }
  }

  method ShouldScrub(prefixes: seq<string>, key: string) returns (r: bool)
    ensures r <==> HasPrefix(prefixes, key)
  {
    for i := 0 to |prefixes|
      invariant forall j :: 0 <= j < i ==> !(prefixes[j] <= key)
    {
      if prefixes[i] <= key {
        return true;
      }
    }
    return false;
  }

  predicate Sets(env: Environment, key: string) {
    exists i :: 0 <= i < |env| && env[i].0 == key
  }

  predicate IsColour(key: string) {
    key == "TERM" || key == "COLORTERM"
  }

  const COLOURS: Environment := [("TERM", "xterm-256color"), ("COLORTERM", "truecolor")]

  /** An inherited variable that reaches the agent when `own` is set last. */
  predicate Inherits(prefixes: seq<string>, own: Environment, key: string) {
    !HasPrefix(prefixes, key) && key != "NO_COLOR" && !IsColour(key) && !Sets(own, key)
  }

  function Kept(prefixes: seq<string>, own: Environment, inherited: Environment): Environment {
    Filter((v: Variable) => Inherits(prefixes, own, v.0), inherited)
  }

  function Colours(own: Environment): Environment {
    Filter((v: Variable) => !Sets(own, v.0), COLOURS)
  }

  /** The environment in full: what is inherited, the asserted colours, the manifest's own. */
  function SpawnEnv(prefixes: seq<string>, own: Environment, inherited: Environment): Environment {
    Kept(prefixes, own, inherited) + Colours(own) + own
  }

  lemma {:induction false} FilterTwice<T(!new)>(p: T -> bool, q: T -> bool, both: T -> bool, s: seq<T>)
    requires forall x :: both(x) <==> p(x) && q(x)
    ensures Filter(p, Filter(q, s)) == Filter(both, s)
  {
    if s != [] {
      FilterTwice(p, q, both, s[1..]);
      if q(s[0]) {
        assert ([s[0]] + Filter(q, s[1..]))[1..] == Filter(q, s[1..]);
      }
    }
  }

  lemma {:induction false} FilterSame<T(!new)>(p: T -> bool, q: T -> bool, s: seq<T>)
    requires forall x :: p(x) <==> q(x)
    ensures Filter(p, s) == Filter(q, s)
  {
    if s != [] {
      FilterSame(p, q, s[1..]);
    }
  }

  /** `Vec::retain` of the entries with another key. */
  function Without(env: Environment, key: string): Environment {
    Filter((v: Variable) => v.0 != key, env)
  }

  lemma SetsSnoc(own: Environment, v: Variable)
    ensures forall key :: Sets(own + [v], key) <==> Sets(own, key) || key == v.0
  {
    forall key ensures Sets(own + [v], key) <==> Sets(own, key) || key == v.0 {
      if Sets(own, key) {
        var i :| 0 <= i < |own| && own[i].0 == key;
        assert (own + [v])[i].0 == key;
      }
      assert (own + [v])[|own|] == v;
    }
  }

  lemma KeptOneMore(prefixes: seq<string>, own: Environment, inherited: Environment, v: Variable)
    ensures Without(Kept(prefixes, own, inherited), v.0) == Kept(prefixes, own + [v], inherited)
  {
    SetsSnoc(own, v);
    FilterTwice((x: Variable) => x.0 != v.0, (x: Variable) => Inherits(prefixes, own, x.0),
                (x: Variable) => Inherits(prefixes, own + [v], x.0), inherited);
  }

  lemma ColoursOneMore(own: Environment, v: Variable)
    ensures Without(Colours(own), v.0) == Colours(own + [v])
  {
    SetsSnoc(own, v);
    FilterTwice((x: Variable) => x.0 != v.0, (x: Variable) => !Sets(own, x.0),
                (x: Variable) => !Sets(own + [v], x.0), COLOURS);
  }

  lemma WithoutConcat(a: Environment, b: Environment, key: string)
    ensures Without(a + b, key) == Without(a, key) + Without(b, key)
  {
    FilterConcat((x: Variable) => x.0 != key, a, b);
  }

  lemma WithoutAbsent(env: Environment, key: string)
    requires !Sets(env, key)
    ensures Without(env, key) == env
  {
    forall x | x in env ensures x.0 != key {
      var i :| 0 <= i < |env| && env[i] == x;
    }
    FilterAll((x: Variable) => x.0 != key, env);
  }

  /** Setting one more variable: the older entries of that key go, the new one comes last. */
  lemma SetOneMore(prefixes: seq<string>, own: Environment, inherited: Environment, v: Variable)
    requires !Sets(own, v.0)
    ensures Without(SpawnEnv(prefixes, own, inherited), v.0) + [v] == SpawnEnv(prefixes, own + [v], inherited)
  {
    KeptOneMore(prefixes, own, inherited, v);
    ColoursOneMore(own, v);
    var kept, colours := Kept(prefixes, own, inherited), Colours(own);
    WithoutConcat(kept + colours, own, v.0);
    WithoutConcat(kept, colours, v.0);
    WithoutAbsent(own, v.0);
    var before := Without(kept, v.0) + Without(colours, v.0);
    assert (before + own) + [v] == before + (own + [v]);
  }

  /** The inherited variables that no scrub prefix matches. */
  method Scrubbed(prefixes: seq<string>, inherited: Environment) returns (env: Environment)
    ensures env == Filter((v: Variable) => !HasPrefix(prefixes, v.0), inherited)
  {
    env := [];
    ghost var unscrubbed := (v: Variable) => !HasPrefix(prefixes, v.0);
    for i := 0 to |inherited|
      invariant env == Filter(unscrubbed, inherited[..i])
    {
      var scrub := ShouldScrub(prefixes, inherited[i].0);
      FilterConcat(unscrubbed, inherited[..i], [inherited[i]]);
      assert inherited[..i + 1] == inherited[..i] + [inherited[i]];
      if !scrub {
        env := env + [inherited[i]];
      }
    }
    assert inherited[..|inherited|] == inherited;
  }

  /** The rewriting loops: scrub, drop, assert the colours, then let the manifest override. */
  method BuildEnv(d: Descriptor, inherited: Environment) returns (env: Environment)
    requires d.Ok()
    ensures env == SpawnEnv(d.scrubPrefixes, d.env, inherited)
  {
    env := Scrubbed(d.scrubPrefixes, inherited);
    StripColours(d.scrubPrefixes, inherited);
    env := Without(env, "NO_COLOR");
    env := Filter((v: Variable) => v.0 != "TERM" && v.0 != "COLORTERM", env);
    env := env + [("TERM", "xterm-256color")];
    env := env + [("COLORTERM", "truecolor")];
    for i := 0 to |d.env|
      invariant env == SpawnEnv(d.scrubPrefixes, d.env[..i], inherited)
    {
      var v := d.env[i];
      assert !Sets(d.env[..i], v.0);
      SetOneMore(d.scrubPrefixes, d.env[..i], inherited, v);
      assert d.env[..i + 1] == d.env[..i] + [v];
      env := Without(env, v.0);
      env := env + [v];
    }
    assert d.env[..|d.env|] == d.env;
  }

  /** Scrubbing, dropping and asserting the colours is the environment of an empty manifest. */
  lemma StripColours(prefixes: seq<string>, inherited: Environment)
    ensures var scrubbed := Filter((v: Variable) => !HasPrefix(prefixes, v.0), inherited);
            var stripped := Filter((v: Variable) => v.0 != "TERM" && v.0 != "COLORTERM", Without(scrubbed, "NO_COLOR"));
            stripped + [("TERM", "xterm-256color")] + [("COLORTERM", "truecolor")] == SpawnEnv(prefixes, [], inherited)
  {
    var unscrubbed := (v: Variable) => !HasPrefix(prefixes, v.0);
    var coloured := (v: Variable) => v.0 != "NO_COLOR" && !HasPrefix(prefixes, v.0);
    FilterTwice((v: Variable) => v.0 != "NO_COLOR", unscrubbed, coloured, inherited);
    FilterTwice((v: Variable) => v.0 != "TERM" && v.0 != "COLORTERM", coloured,
                (v: Variable) => Inherits(prefixes, [], v.0), inherited);
    FilterAll((v: Variable) => !Sets([], v.0), COLOURS);
    assert Colours([]) == COLOURS;
  }

  // ---------------------------------------------------------------- what the agent sees

  /** The value of a variable: its last entry. */
  function Lookup(env: Environment, key: string): Option<string> {
    if env == [] then None
    else if env[|env| - 1].0 == key then Some(env[|env| - 1].1)
    else Lookup(env[..|env| - 1], key)
  }

  lemma {:induction false} LookupConcat(a: Environment, b: Environment, key: string)
    ensures Lookup(a + b, key) == if Lookup(b, key).Some? then Lookup(b, key) else Lookup(a, key)
  {
    if b == [] {
      assert a + b == a;
    } else {
      assert (a + b)[..|a + b| - 1] == a + b[..|b| - 1];
      LookupConcat(a, b[..|b| - 1], key);
    }
  }

  lemma {:induction false} LookupSets(env: Environment, key: string)
    ensures Lookup(env, key).Some? <==> Sets(env, key)
  {
    if env != [] {
      var n := |env| - 1;
      LookupSets(env[..n], key);
      if Sets(env, key) && env[n].0 != key {
        var i :| 0 <= i < |env| && env[i].0 == key;
        assert env[..n][i].0 == key;
      }
    }
  }

  lemma {:induction false} LookupFiltered(keep: string -> bool, env: Environment, key: string)
    ensures Lookup(Filter((v: Variable) => keep(v.0), env), key) == if keep(key) then Lookup(env, key) else None
  {
    var kept := (v: Variable) => keep(v.0);
    if env != [] {
      var n := |env| - 1;
      LookupFiltered(keep, env[..n], key);
      assert env == env[..n] + [env[n]];
      FilterConcat(kept, env[..n], [env[n]]);
      LookupConcat(Filter(kept, env[..n]), Filter(kept, [env[n]]), key);
    }
  }

  /** What each variable should be: the manifest's, else the asserted colour, else inherited unless dropped. */
  function Promised(d: Descriptor, inherited: Environment, key: string): Option<string> {
    if Sets(d.env, key) then Lookup(d.env, key)
    else if key == "TERM" then Some("xterm-256color")
    else if key == "COLORTERM" then Some("truecolor")
    else if key == "NO_COLOR" || HasPrefix(d.scrubPrefixes, key) then None
    else Lookup(inherited, key)
  }

  /** Every variable of a launch, of any name, has the promised value or is absent as promised. */
  lemma EveryVariableAsPromised(d: Descriptor, inherited: Environment, key: string)
    ensures Lookup(SpawnEnv(d.scrubPrefixes, d.env, inherited), key) == Promised(d, inherited, key)
  {
    var kept, colours := Kept(d.scrubPrefixes, d.env, inherited), Colours(d.env);
    LookupConcat(kept + colours, d.env, key);
    LookupConcat(kept, colours, key);
    LookupSets(d.env, key);
    var keep := (k: string) => Inherits(d.scrubPrefixes, d.env, k);
    LookupFiltered(keep, inherited, key);
    FilterSame((v: Variable) => keep(v.0), (v: Variable) => Inherits(d.scrubPrefixes, d.env, v.0), inherited);
    var unset := (k: string) => !Sets(d.env, k);
    LookupFiltered(unset, COLOURS, key);
    FilterSame((v: Variable) => unset(v.0), (v: Variable) => !Sets(d.env, v.0), COLOURS);
    assert COLOURS == [("TERM", "xterm-256color")] + [("COLORTERM", "truecolor")];
    LookupConcat([("TERM", "xterm-256color")], [("COLORTERM", "truecolor")], key);
  }

  // ---------------------------------------------------------------- the command line

  /** The last non-empty SHELL, else /bin/sh. */
  function LoginShell(env: Environment): string {
    if env == [] then "/bin/sh"
    else
      var v := env[|env| - 1];
      if v.0 == "SHELL" && v.1 != "" then v.1 else LoginShell(env[..|env| - 1])
  }

  /** A non-empty SHELL of the agent's environment is the shell it returns to. */
  lemma {:induction false} LoginShellIsShell(env: Environment)
    requires Lookup(env, "SHELL") != Some("")
    ensures Lookup(env, "SHELL").Some? ==> LoginShell(env) == Lookup(env, "SHELL").value
    ensures Lookup(env, "SHELL").None? ==> LoginShell(env) == "/bin/sh"
  {
    if env != [] && env[|env| - 1].0 != "SHELL" {
      LoginShellIsShell(env[..|env| - 1]);
    }
  }

  method FindShell(env: Environment) returns (shell: string)
    ensures shell == LoginShell(env)
  {
    var i := |env|;
    assert env[..i] == env;
    while i > 0
      invariant 0 <= i <= |env| && LoginShell(env[..i]) == LoginShell(env)
    {
      i := i - 1;
      assert env[..i + 1][..i] == env[..i];
      if env[i].0 == "SHELL" && env[i].1 != "" {
        return env[i].1;
      }
    }
    return "/bin/sh";
  }

  method FindLast(env: Environment, key: string) returns (value: Option<string>)
    ensures value == Lookup(env, key)
  {
    var i := |env|;
    assert env[..i] == env;
    while i > 0
      invariant 0 <= i <= |env| && Lookup(env[..i], key) == Lookup(env, key)
    {
      i := i - 1;
      assert env[..i + 1][..i] == env[..i];
      if env[i].0 == key {
        return Some(env[i].1);
      }
    }
    return None;
  }

  /** Executable lookup: where `PATH` is searched is a parameter. */
  function Resolved(name: string, path: Option<string>, search: (string, string) -> Option<string>): string {
    if '/' in name || path.None? then name
    else
      var found := search(name, path.value);
      if found.Some? then found.value else name
  }

  /**
    `spawn_spec`. Without a binary there is no launch; else the environment is `SpawnEnv`, and the
    argv is the login shell with the quoted command line, or the binary and its arguments.
   */
  /** A name with a slash is not looked for; any other is what the search finds, or itself. */
  lemma ResolvedExactly(name: string, path: Option<string>, search: (string, string) -> Option<string>)
    ensures '/' in name ==> Resolved(name, path, search) == name
    ensures '/' !in name && path.Some? && search(name, path.value).Some? ==>
              Some(Resolved(name, path, search)) == search(name, path.value)
    ensures path.None? || search(name, path.value).None? ==> Resolved(name, path, search) == name
  {
  }

  method SpawnSpec(d: Descriptor, inherited: Environment, extra: seq<string>, daemonPath: Option<string>,
                   search: (string, string) -> Option<string>)
    returns (spec: Option<PtySpec>)
    requires d.Ok()
    ensures spec.Some? <==> d.binary.Some?
    ensures spec.Some? ==>
              var env := SpawnEnv(d.scrubPrefixes, d.env, inherited);
              var argv := [d.binary.value] + extra;
              && spec.value.env == env
              && (d.returnToLoginShell ==>
                    spec.value.argv == [LoginShell(env), "-i", "-l", "-c", LoginCommand(argv, LoginShell(env))])
              && (!d.returnToLoginShell ==>
                    var path := if Lookup(env, "PATH").Some? then Lookup(env, "PATH") else daemonPath;
                    spec.value.argv == [Resolved(d.binary.value, path, search)] + extra)
  {
    if d.binary.None? {
      return None;
    }
    var argv := [d.binary.value] + extra;
    var env := BuildEnv(d, inherited);
    if d.returnToLoginShell {
      var shell := FindShell(env);
      var command := LoginCommand(argv, shell);
      argv := [shell, "-i", "-l", "-c", command];
    } else if '/' !in argv[0] {
      var path := FindLast(env, "PATH");
      if path.None? {
        path := daemonPath;
      }
      if path.Some? {
        var found := search(argv[0], path.value);
        if found.Some? {
          argv := argv[0 := found.value];
        }
      }
    }
    return Some(PtySpec(argv, env));
  }

  /** `remote_spawn_spec`: the same environment, the argv untouched. */
  method RemoteSpawnSpec(d: Descriptor, inherited: Environment, extra: seq<string>) returns (spec: Option<PtySpec>)
    requires d.Ok()
    ensures spec == if d.binary.None? then None
                    else Some(PtySpec([d.binary.value] + extra, SpawnEnv(d.scrubPrefixes, d.env, inherited)))
  {
    if d.binary.None? {
      return None;
    }
    var env := BuildEnv(d, inherited);
    return Some(PtySpec([d.binary.value] + extra, env));
  }
}
