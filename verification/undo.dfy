/** The switch of docker to containerd's image store and the log that takes it back (internal/hostsetup/manager.go). */
module Undo {
  import opened Wrappers

  type Bytes = seq<bv8>
  type Files = map<string, Bytes>

  const TEMP := ".yougpu-tmp"

  predicate IsTemp(path: string) {
    |path| >= |TEMP| && path[|path| - |TEMP|..] == TEMP
  }

  function Get(files: Files, path: string): Option<Bytes> {
    if path in files then Some(files[path]) else None
  }

  /** The files are the same, leftovers of unfinished writes aside. */
  ghost predicate Same(a: Files, b: Files) {
    forall p {:trigger Get(a, p)} {:trigger Get(b, p)} :: !IsTemp(p) ==> Get(a, p) == Get(b, p)
  }

  ghost predicate Only(before: Files, after: Files, path: string, content: Option<Bytes>) {
    && Get(after, path) == content
    && forall p {:trigger Get(before, p)} {:trigger Get(after, p)} ::
         !IsTemp(p) && p != path ==> Get(after, p) == Get(before, p)
  }

  /** The files of the host. The n-th operation on them fails when `fails(n)` says so. */
  class Host {
    const fails: nat -> bool
    var files: Files
    var ops: nat
    // How many operations have failed.
    ghost var faults: nat

    constructor (files: Files, fails: nat -> bool)
      ensures this.files == files && this.fails == fails
    {
      this.files, this.fails, ops, faults := files, fails, 0, 0;
    }

    method Try() returns (ok: bool)
      modifies this`ops, this`faults
      ensures ok <==> !fails(old(ops))
      ensures faults == old(faults) + if ok then 0 else 1
    {
      ok := !fails(ops);
      ops := ops + 1;
      if !ok {
        faults := faults + 1;
      }
    }

    /** readOptional: a missing file is no error. */
    method ReadOptional(path: string) returns (r: Result<Option<Bytes>, ()>)
      modifies this`ops, this`faults
      ensures r.Success? ==> r.value == Get(files, path)
      ensures faults >= old(faults) && (Sound() ==> r.Success?)
    {
      var ok := Try();
      r := if ok then Success(Get(files, path)) else Failure(());
    }

    /** writeConfig: a new file next to the target, then a rename over it. */
    method WriteConfig(path: string, data: Bytes) returns (ok: bool)
      requires !IsTemp(path)
      modifies this`files, this`ops, this`faults
      ensures ok ==> Only(old(files), files, path, Some(data))
      ensures !ok ==> Same(old(files), files) && faults > old(faults)
      ensures faults >= old(faults) && (Sound() ==> ok)
    {
      ok := Try();
      if !ok {
        return;
      }
      var temp := path + TEMP;
      ok := Try();
      if !ok {
        if * {
          var written: nat :| written <= |data|;
          files := files[temp := data[..written]];
        }
        return;
      }
      files := files[temp := data];
      ok := Try();
      if ok {
        files := files[path := files[temp]] - {temp};
      }
    }

    /** No operation on the files fails. */
    ghost predicate Sound() {
      forall n {:trigger fails(n)} :: !fails(n)
    }

    /** restoreConfig. */
    method RestoreConfig(path: string, before: Option<Bytes>) returns (ok: bool)
      requires !IsTemp(path)
      modifies this`files, this`ops, this`faults
      ensures ok ==> Only(old(files), files, path, before)
      ensures !ok ==> Same(old(files), files) && faults > old(faults)
      ensures faults >= old(faults) && (Sound() ==> ok)
    {
      if before.Some? {
        ok := WriteConfig(path, before.value);
      } else {
        ok := path !in files;
        if !ok {
          ok := Try();
          if ok {
            files := files - {path};
          }
        }
      }
    }
  }

  datatype Step = Step(path: string, before: Option<Bytes>)

  /** The first step from the i-th on that is about the path. */
  function First(steps: seq<Step>, i: nat, path: string): (n: nat)
    requires i <= |steps|
    ensures i <= n <= |steps| && (n < |steps| ==> steps[n].path == path)
    decreases |steps| - i
  {
    if i == |steps| || steps[i].path == path then i else First(steps, i + 1, path)
  }

  lemma {:induction false} FirstAppend(steps: seq<Step>, step: Step, i: nat, path: string)
    requires i <= |steps|
    ensures First(steps + [step], i, path) ==
            var n := First(steps, i, path); if n == |steps| && step.path != path then n + 1 else n
    decreases |steps| - i
  {
    if i < |steps| {
      FirstAppend(steps, step, i + 1, path);
    }
  }

  /** The log can bring back the files of `base`: it knows what it first replaced, and the rest has not changed. */
  ghost predicate Remembers(steps: seq<Step>, files: Files, base: Files) {
    && (forall i :: 0 <= i < |steps| ==> !IsTemp(steps[i].path))
    && forall p {:trigger Get(base, p)} {:trigger First(steps, 0, p)} :: !IsTemp(p) ==>
         Get(base, p) == var n := First(steps, 0, p); if n < |steps| then steps[n].before else Get(files, p)
  }

  class UndoLog {
    var steps: seq<Step>

    constructor ()
      ensures steps == []
    {
      steps := [];
    }

    /** replace: nothing has changed when it fails, and it then leaves no step. */
    method Replace(host: Host, path: string, data: Bytes, ghost base: Files) returns (ok: bool)
      requires !IsTemp(path) && Remembers(steps, host.files, base)
      modifies host`files, host`ops, host`faults, this
      ensures Remembers(steps, host.files, base)
      ensures ok ==> Only(old(host.files), host.files, path, Some(data))
      ensures !ok ==> Same(old(host.files), host.files) && steps == old(steps)
      ensures host.faults >= old(host.faults) && (host.Sound() ==> ok)
    {
      var before := host.ReadOptional(path);
      if before.Failure? {
        return false;
      }
      ok := host.WriteConfig(path, data);
      if ok {
        steps := steps + [Step(path, before.value)];
      }
      forall p | !IsTemp(p)
        ensures Get(base, p) ==
                var n := First(steps, 0, p);
                if n < |steps| then steps[n].before else Get(host.files, p)
      {
        FirstAppend(old(steps), Step(path, before.value), 0, p);
        assert p != path ==> Get(host.files, p) == Get(old(host.files), p);
      }
    }

    /**
     * run: the steps are taken back last first, past the ones that fail. Every file whose first step could be taken
     * back is as it was before the log began, whatever became of its later steps; without errors that is every file.
     */
    method Run(host: Host, ghost base: Files) returns (errs: seq<nat>)
      requires Remembers(steps, host.files, base)
      modifies host`files, host`ops, host`faults
      ensures forall n :: n in errs ==> n < |steps|
      ensures forall p :: !IsTemp(p) && First(steps, 0, p) !in errs ==> Get(host.files, p) == Get(base, p)
      ensures errs == [] ==> Same(base, host.files)
      ensures errs != [] ==> host.faults > old(host.faults) && !host.Sound()
      ensures host.faults >= old(host.faults)
    {
      errs := [];
      var i := |steps|;
      while i > 0
        invariant 0 <= i <= |steps| && host.faults >= old(host.faults)
        invariant errs != [] ==> host.faults > old(host.faults) && !host.Sound()
        invariant forall n :: n in errs ==> i <= n < |steps|
        invariant forall p {:trigger First(steps, i, p)} {:trigger Get(host.files, p)} ::
                    !IsTemp(p) && First(steps, i, p) !in errs ==>
                      Get(host.files, p) ==
                      var n := First(steps, i, p);
                      if n < |steps| then steps[n].before else Get(old(host.files), p)
      {
        i := i - 1;
        var ok := host.RestoreConfig(steps[i].path, steps[i].before);
        if !ok {
          errs := errs + [i];
        }
      }
      assert forall p :: !IsTemp(p) && First(steps, 0, p) !in errs ==> Get(host.files, p) == Get(base, p);
    }
  }

  /** Where the files of containerd and docker are, what they mean and hold; a missing file reads as an empty one. */
  datatype Setup = Setup(
    mainConfig: string,
    dropInConfig: string,
    unitConfig: string,
    dockerConfig: string,
    glob: string,
    imports: Bytes -> Option<seq<string>>,
    importLine: Bytes,
    withStore: Bytes -> Option<Bytes>,
    dropIn: Bytes,
    unit: Bytes)
  {
    predicate Valid() {
      && !IsTemp(mainConfig) && !IsTemp(dropInConfig) && !IsTemp(unitConfig) && !IsTemp(dockerConfig)
      && mainConfig != dropInConfig && mainConfig != unitConfig && mainConfig != dockerConfig
      && dropInConfig != unitConfig && dropInConfig != dockerConfig && unitConfig != dockerConfig
    }

    /** withImport: a main config with other imports is left alone. */
    function WithImport(main: Bytes): Option<Bytes> {
      match imports(main)
      case None => None
      case Some(found) =>
        if glob in found then Some(main) else if found != [] then None else Some(importLine + main)
    }

    /** containerdConfigured. */
    predicate Configured(files: Files) {
      && Get(files, dropInConfig) == Some(dropIn)
      && var found := imports(Content(Get(files, mainConfig)));
         found.Some? && glob in found.value
    }

    /** The configs as they are can be extended, and containerd then reads the import. */
    predicate Suitable(files: Files) {
      var main := WithImport(Content(Get(files, mainConfig)));
      && withStore(Content(Get(files, dockerConfig))).Some?
      && main.Some?
      && var found := imports(main.value);
         found.Some? && glob in found.value
    }

    /** The files after a switch: these and no others differ from before, the unit only for a containerd of our own. */
    ghost predicate Switched(before: Files, after: Files, own: bool) {
      && Written(before, after)
      && dockerConfig in after && Get(after, dockerConfig) == withStore(Content(Get(before, dockerConfig)))
      && (if own then Get(after, unitConfig) == Some(unit) else Get(after, unitConfig) == Get(before, unitConfig))
      && forall p {:trigger Get(after, p)} ::
           !IsTemp(p) && p != dropInConfig && p != mainConfig && p != dockerConfig && p != unitConfig ==>
             Get(after, p) == Get(before, p)
    }

    /**
     * What a switch does to the main config, whatever else is in it: it keeps all it had, after the import line unless
     * it has that import already.
     */
    predicate MainKept(before: Files, after: Files) {
      var was, becomes := Content(Get(before, mainConfig)), Content(Get(after, mainConfig));
      && imports(was).Some?
      && (if glob in imports(was).value then becomes == was
          else imports(was).value == [] && becomes == importLine + was)
    }

    lemma WrittenKeepsMain(before: Files, after: Files)
      ensures Written(before, after) ==> MainKept(before, after)
    {
    }

    /** The main config cannot be read, or has imports of its own and not this one. */
    predicate HasOtherImports(files: Files) {
      var found := imports(Content(Get(files, mainConfig)));
      found.None? || (glob !in found.value && found.value != [])
    }

    lemma SwitchedIsSuitable(before: Files, after: Files, own: bool)
      requires Switched(before, after, own) && Configured(after)
      ensures Suitable(before)
    {
    }

    ghost predicate Written(before: Files, after: Files) {
      && Get(after, dropInConfig) == Some(dropIn)
      && mainConfig in after && Get(after, mainConfig) == WithImport(Content(Get(before, mainConfig)))
    }

    /** The files when the configs of containerd are written and docker's is next. */
    ghost predicate Prepared(before: Files, after: Files) {
      && Written(before, after)
      && forall p {:trigger Get(after, p)} ::
           !IsTemp(p) && p != dropInConfig && p != mainConfig ==> Get(after, p) == Get(before, p)
    }
  }

  function Content(file: Option<Bytes>): Bytes {
    if file.Some? then file.value else []
  }

  /** The part of the manager that switches. `says` is what the n-th command run on the host comes to. */
  class Manager {
    const says: nat -> bool
    const setup: Setup
    var asked: nat
    var skipped: bool

    constructor (setup: Setup, says: nat -> bool)
      ensures this.setup == setup && this.says == says && !skipped
    {
      this.setup, this.says, asked, skipped := setup, says, 0, false;
    }

    method Ask() returns (yes: bool)
      modifies this`asked
      ensures yes == says(old(asked)) && asked == old(asked) + 1
    {
      yes := says(asked);
      asked := asked + 1;
    }

    /** Every command from the n-th on answers yes. */
    ghost predicate AllYes(from: nat) {
      forall n {:trigger says(n)} :: n >= from ==> says(n)
    }

    /** From here on every command answers yes and no file operation fails. */
    ghost predicate Smooth(host: Host)
      reads this`asked
    {
      host.Sound() && AllYes(asked)
    }

    /** The host has no containers, every later command answers yes, and no file operation fails. */
    ghost predicate Untroubled(host: Host, from: nat) {
      !says(from) && AllYes(from + 1) && host.Sound()
    }

    /** The last two commands answered yes: after containerdReady, the version and the image store. */
    predicate LastTwoYes()
      reads this`asked
    {
      asked >= 2 && says(asked - 2) && says(asked - 1)
    }

    /** containerdReady: a new enough version, the configs in place, and docker on containerd's store. */
    method ContainerdReady(host: Host) returns (ready: bool)
      modifies this`asked, host`ops, host`faults
      ensures ready ==> setup.Configured(host.files) && LastTwoYes() && asked == old(asked) + 2
      ensures host.faults >= old(host.faults) && asked >= old(asked)
      ensures old(Smooth(host)) && setup.Configured(host.files) ==> ready
    {
      ready := Ask();
      if !ready {
        return;
      }
      var found := host.ReadOptional(setup.dropInConfig);
      if found.Failure? || found.value != Some(setup.dropIn) {
        return false;
      }
      var main := host.ReadOptional(setup.mainConfig);
      if main.Failure? {
        return false;
      }
      var imports := setup.imports(Content(main.value));
      if imports.None? || setup.glob !in imports.value {
        return false;
      }
      ready := Ask();
    }

    /** prepareContainerd: every config is read and checked before the first is written. */
    method Prepare(host: Host, undo: UndoLog, ghost base: Files) returns (own: bool, daemon: Option<Bytes>)
      requires setup.Valid() && undo.steps == [] && base == host.files
      modifies this`asked, host`files, host`ops, host`faults, undo
      ensures Remembers(undo.steps, host.files, base)
      ensures daemon.Some? ==>
                setup.Prepared(base, host.files) && daemon == setup.withStore(Content(Get(base, setup.dockerConfig)))
      ensures host.faults >= old(host.faults) && asked >= old(asked)
      ensures daemon.Some? ==> setup.MainKept(base, host.files)
      ensures setup.HasOtherImports(base) ==> daemon.None? && undo.steps == [] && host.files == base
      ensures old(Smooth(host)) && setup.Suitable(base) ==> daemon.Some?
    {
      own, daemon := false, None;
      var configs := ReadConfigs(host);
      if configs.None? {
        return;
      }
      var found;
      own, found := FindContainerd();
      if !found {
        return;
      }
      var ok := WriteConfigs(host, undo, configs.value.1, base);
      if !ok {
        return;
      }
      setup.WrittenKeepsMain(base, host.files);
      var accepted := Ask();
      if accepted {
        daemon := Some(configs.value.0);
      }
    }

    /** Docker's config with the image store, and containerd's with the import. */
    method ReadConfigs(host: Host) returns (configs: Option<(Bytes, Bytes)>)
      modifies host`ops, host`faults
      ensures configs.Some? ==>
                && Some(configs.value.0) == setup.withStore(Content(Get(host.files, setup.dockerConfig)))
                && Some(configs.value.1) == setup.WithImport(Content(Get(host.files, setup.mainConfig)))
      ensures setup.HasOtherImports(host.files) ==> configs.None?
      ensures host.faults >= old(host.faults)
      ensures host.Sound() && setup.Suitable(host.files) ==> configs.Some?
    {
      configs := None;
      var current := host.ReadOptional(setup.dockerConfig);
      if current.Failure? {
        return;
      }
      var store := setup.withStore(Content(current.value));
      if store.None? {
        return;
      }
      var main := host.ReadOptional(setup.mainConfig);
      if main.Failure? {
        return;
      }
      var imported := setup.WithImport(Content(main.value));
      if imported.Some? {
        configs := Some((store.value, imported.value));
      }
    }

    /** The host's containerd if it is new enough, else our own, downloaded unless it is there. */
    method FindContainerd() returns (own: bool, found: bool)
      modifies this`asked
      ensures asked >= old(asked) && (AllYes(old(asked)) ==> found)
    {
      var supported := Ask();
      own, found := !supported, true;
      if own {
        found := Ask();
        if !found {
          found := Ask();
        }
      }
    }

    /** The two configs of containerd, the drop-in first. */
    method WriteConfigs(host: Host, undo: UndoLog, main: Bytes, ghost base: Files) returns (ok: bool)
      requires setup.Valid() && Remembers(undo.steps, host.files, base) && base == host.files
      requires Some(main) == setup.WithImport(Content(Get(base, setup.mainConfig)))
      modifies host`files, host`ops, host`faults, undo
      ensures Remembers(undo.steps, host.files, base)
      ensures ok ==> setup.Prepared(base, host.files)
      ensures host.faults >= old(host.faults) && (host.Sound() ==> ok)
    {
      ok := undo.Replace(host, setup.dropInConfig, setup.dropIn, base);
      if ok {
        ok := undo.Replace(host, setup.mainConfig, main, base);
      }
    }

    /** restartContainerdAndDocker: docker is started even when containerd is not. */
    method Restart() returns (ok: bool)
      modifies this`asked
      ensures asked >= old(asked)
      ensures AllYes(old(asked)) ==> ok
    {
      ok := Ask();
      if ok {
        ok := Ask();
        if ok {
          ok := Ask();
        }
        var started := Ask();
        ok := ok && started;
      }
    }

    /** applyContainerd. */
    method Apply(host: Host, undo: UndoLog, own: bool, daemon: Bytes, tries: nat, ghost base: Files) returns (ok: bool)
      requires setup.Valid() && Remembers(undo.steps, host.files, base) && setup.Prepared(base, host.files)
      requires Some(daemon) == setup.withStore(Content(Get(base, setup.dockerConfig)))
      modifies this`asked, host`files, host`ops, host`faults, undo
      ensures Remembers(undo.steps, host.files, base)
      ensures ok ==> setup.Switched(base, host.files, own) && setup.Configured(host.files) && LastTwoYes()
      ensures host.faults >= old(host.faults)
      ensures asked >= old(asked)
      ensures old(Smooth(host)) && setup.Suitable(base) && tries > 0 ==> ok
    {
      if own {
        ok := undo.Replace(host, setup.unitConfig, setup.unit, base);
        if !ok {
          return;
        }
        ok := Ask();
        if !ok {
          return;
        }
      }
      ok := undo.Replace(host, setup.dockerConfig, daemon, base);
      if !ok {
        return;
      }
      ok := Restart();
      if !ok {
        return;
      }
      ok := AwaitReady(host, tries);
    }

    method AwaitReady(host: Host, tries: nat) returns (ready: bool)
      modifies this`asked, host`ops, host`faults
      ensures ready ==> setup.Configured(host.files) && LastTwoYes()
      ensures host.faults >= old(host.faults) && asked >= old(asked)
      ensures old(Smooth(host)) && setup.Configured(host.files) && tries > 0 ==> ready
    {
      for i := 0 to tries
        invariant host.faults >= old(host.faults) && asked >= old(asked)
        invariant i > 0 ==> !(old(Smooth(host)) && setup.Configured(host.files))
      {
        ready := ContainerdReady(host);
        if ready {
          return;
        }
        var goesOn := Ask();
        if !goesOn {
          return;
        }
      }
      ready := false;
    }

    /** giveUpContainerd: the files go back first, then docker is restarted on them. */
    method GiveUp(host: Host, undo: UndoLog, restarted: bool, tries: nat, ghost base: Files) returns (ok: bool)
      requires Remembers(undo.steps, host.files, base)
      modifies this`asked, this`skipped, host`files, host`ops, host`faults
      ensures skipped
      ensures ok ==> Same(base, host.files)
      ensures !Same(base, host.files) ==> host.faults > old(host.faults)
      ensures undo.steps == [] ==> Same(base, host.files)
      ensures old(Smooth(host)) && tries > 0 ==> ok
    {
      skipped := true;
      var errs := undo.Run(host, base);
      if errs != [] {
        return false;
      }
      if restarted {
        ok := Ask();
        if !ok {
          return;
        }
        ok := Restart();
        if !ok {
          return;
        }
      }
      ok := false;
      for i := 0 to tries
        modifies this`asked
        invariant !ok && asked >= old(asked)
        invariant i > 0 ==> !old(Smooth(host))
      {
        ok := Ask();
        if ok {
          return;
        }
        var goesOn := Ask();
        if !goesOn {
          return;
        }
      }
    }

    /** The configs have been switched, nothing else has changed, and containerd has just been seen ready. */
    ghost predicate SwitchedNow(before: Files, after: Files)
      reads this`asked
    {
      setup.Configured(after) && LastTwoYes() && exists own :: setup.Switched(before, after, own)
    }

    /**
     * switchToContainerd: all or nothing. When it succeeds, either the configs are in place, nothing else has changed
     * and containerd has been seen ready, or the switch was given up and every file is as it was. When it fails, the
     * files are as they were too, unless a file operation has failed. On a host without containers where nothing goes
     * wrong it switches if the configs can be extended, and else gives up with every file as it was.
     */
    method Switch(host: Host, tries: nat) returns (ok: bool)
      requires setup.Valid()
      modifies this`asked, this`skipped, host`files, host`ops, host`faults
      ensures old(skipped) ==> skipped
      ensures ok ==> Same(old(host.files), host.files) || SwitchedNow(old(host.files), host.files)
      ensures ok && !skipped ==> SwitchedNow(old(host.files), host.files)
      ensures ok && skipped && !old(skipped) ==> Same(old(host.files), host.files)
      ensures !ok ==> skipped && (Same(old(host.files), host.files) || host.faults > old(host.faults))
      ensures ok ==> Same(old(host.files), host.files) || setup.MainKept(old(host.files), host.files)
      ensures ok && !skipped ==> setup.MainKept(old(host.files), host.files)
      ensures ok && !skipped ==>
                var found := setup.imports(Content(Get(host.files, setup.mainConfig)));
                && found.Some? && setup.glob in found.value
                && Get(host.files, setup.dropInConfig) == Some(setup.dropIn)
      ensures setup.HasOtherImports(old(host.files)) ==> skipped && Same(old(host.files), host.files)
      ensures says(old(asked)) ==> ok && skipped && host.files == old(host.files)
      ensures Untroubled(host, old(asked)) && tries > 0 && setup.Suitable(old(host.files)) ==>
                ok && skipped == old(skipped) && SwitchedNow(old(host.files), host.files)
      ensures Untroubled(host, old(asked)) && tries > 0 && !setup.Suitable(old(host.files)) ==>
                ok && skipped && Same(old(host.files), host.files)
    {
      var containers := Ask();
      if containers {
        skipped := true;
        return true;
      }
      ghost var base := host.files;
      var undo := new UndoLog();
      assert Remembers(undo.steps, host.files, base);
      var own, daemon := Prepare(host, undo, base);
      if daemon.None? {
        ok := GiveUp(host, undo, false, tries, base);
        return;
      }
      ok := Apply(host, undo, own, daemon.value, tries, base);
      if ok {
        setup.SwitchedIsSuitable(base, host.files, own);
      } else {
        ok := GiveUp(host, undo, true, tries, base);
      }
    }
  }
}
