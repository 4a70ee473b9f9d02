/** Backing up, rebuilding and publishing a recovered database while other
    programs may touch the source files and the target path, and any step may
    fail (tools/windows/recover_runtime_database.py). */
module RecoveryPublication {
  import opened Wrappers

  // ----- Files -----

  datatype FamilyFile = FamilyFile(size: nat, mtime: int, device: nat, inode: nat, sha256: string)

  /** The main file (suffix "") and its journal files. */
  type Family = map<string, FamilyFile>

  /** What a copy of one family file holds. */
  datatype Copy = Copy(size: nat, sha256: string)

  /** Device, inode, size and digest of the file at a path. */
  datatype Identity = Identity(device: nat, inode: nat, size: nat, sha256: string)

  predicate SameFile(a: FamilyFile, b: FamilyFile) {
    a.size == b.size && a.device == b.device && a.inode == b.inode && a.sha256 == b.sha256
  }

  /** _assert_same_family: the same members, equal up to their times. */
  predicate SameFamily(expected: Family, actual: Family) {
    expected.Keys == actual.Keys && forall k :: k in expected ==> SameFile(expected[k], actual[k])
  }

  /** _verify_raw_backup. */
  predicate BackupMatches(family: Family, backup: map<string, Copy>) {
    forall k :: k in family ==> k in backup && backup[k] == Copy(family[k].size, family[k].sha256)
  }

  // ----- The protocol as steps -----

  /** The tool's steps in their order, then the ends of a run. */
  const PREFLIGHT: nat := 0
  const FIRST_SNAPSHOT: nat := 1
  const COPY_FAMILY: nat := 2
  const SECOND_SNAPSHOT: nat := 3
  const BUILD: nat := 4
  const FINAL_SNAPSHOT: nat := 5
  const IDENTIFY: nat := 6
  const PUBLISH: nat := 7
  const CHECK_PUBLISHED: nat := 8
  const CHECK_SOURCE: nat := 9
  const CHECK_TARGET: nat := 10
  const REPORT: nat := 11
  const LAST_CHECK: nat := 12
  const DONE: nat := 13
  const CLEAN_UP: nat := 14
  const REMOVE: nat := 15
  const FAILED: nat := 16
  const REFUSED: nat := 17
  const UNCLEAN: nat := 18

  /** `source` and `target` are shared with the rest of the machine; `checked` is
      the source family seen after publication, `atExit` what the run left at the
      target path when it ended, `removed` what the error handler took away from it. */
  datatype State = State(
    place: nat,
    source: Family,
    target: Option<Identity>,
    first: Family,
    backup: map<string, Copy>,
    built: Option<Identity>,
    published: Option<Identity>,
    linked: bool,
    checked: Family,
    atExit: Option<Identity>,
    removed: Option<Identity>)

  datatype Fault = NoFault | Before | After

  /** One step of the tool, with what its copy and its build produce, or a change
      of the source family and the target path by somebody else. */
  datatype Event =
    | Tool(fault: Fault, copied: map<string, Copy>, built: Identity)
    | Outside(source: Family, target: Option<Identity>)

  predicate Ended(s: State) { s.place == DONE || s.place >= FAILED }

  /** What a step checks; if it does not hold, the step raises. */
  predicate Passes(s: State) {
    && (s.place == PREFLIGHT || s.place == PUBLISH ==> s.target.None?)
    && (s.place == FIRST_SNAPSHOT ==> "" in s.source)
    && (s.place == SECOND_SNAPSHOT || s.place == FINAL_SNAPSHOT ==> Stable(s) && BackupMatches(s.first, s.backup))
    && (s.place == CHECK_SOURCE ==> Stable(s))
    && (s.place == CHECK_PUBLISHED || s.place == CHECK_TARGET || s.place == LAST_CHECK ==> s.target == s.published)
  }

  predicate Stable(s: State) { SameFamily(s.first, s.source) }

  /** An error goes to the clean-up; before the first snapshot nothing was begun. */
  function Raise(s: State): State {
    if s.place == PREFLIGHT then s.(place := REFUSED, atExit := s.target) else s.(place := CLEAN_UP)
  }

  /** A step that passes its check. */
  function Perform(s: State, copied: map<string, Copy>, built: Identity): State {
    State(s.place + 1,
          s.source,
          if s.place == PUBLISH then s.built else s.target,
          if s.place == FIRST_SNAPSHOT then s.source else s.first,
          if s.place == COPY_FAMILY then copied else s.backup,
          if s.place == BUILD then Some(built) else s.built,
          if s.place == IDENTIFY then s.built else s.published,
          s.linked || s.place == PUBLISH,
          if s.place == CHECK_SOURCE then s.source else s.checked,
          if s.place == LAST_CHECK then s.target else s.atExit,
          s.removed)
  }

  /** The error handler, which can be interrupted itself, first looks whether the
      target is the published file ... */
  function Match(s: State, fault: Fault): State {
    if fault == Before then s.(place := UNCLEAN, atExit := s.target)
    else if s.published.Some? && s.target == s.published then s.(place := REMOVE) else s.(place := FAILED, atExit := s.target)
  }

  /** ... and then removes whatever is at the target path by now. */
  function Remove(s: State, fault: Fault): State {
    if fault == Before then s.(place := UNCLEAN, atExit := s.target)
    else s.(target := None, removed := s.target, place := FAILED, atExit := None)
  }

  /** A fault raises before the step's effect, or right after it. */
  function Attempt(s: State, fault: Fault, passes: bool, copied: map<string, Copy>, built: Identity): State {
    if Ended(s) then s
    else if s.place == CLEAN_UP then Match(s, fault)
    else if s.place == REMOVE then Remove(s, fault)
    else if fault == Before || !passes then Raise(s)
    else if fault == After then Raise(Perform(s, copied, built))
    else Perform(s, copied, built)
  }

  function ToolStep(s: State, fault: Fault, copied: map<string, Copy>, built: Identity): State {
    Attempt(s, fault, Passes(s), copied, built)
  }

  function Step(s: State, e: Event): State {
    match e
    case Tool(fault, copied, built) => ToolStep(s, fault, copied, built)
    case Outside(source, target) => s.(source := source, target := target)
  }

  function Run(s: State, events: seq<Event>): State {
    if events == [] then s else Step(Run(s, events[..|events| - 1]), events[|events| - 1])
  }

  function Initial(source: Family, target: Option<Identity>): State {
    State(PREFLIGHT, source, target, map[], map[], None, None, false, map[], None, None)
  }

  // ----- The target path -----

  /** The tool changes the target path in two ways only: it puts its build where
      nothing was, or it removes what is there right after it found its published
      file there. */
  lemma TouchesOnlyItsOwn(s: State, fault: Fault, copied: map<string, Copy>, built: Identity)
    ensures var t := ToolStep(s, fault, copied, built); OwnChange(s, t)
    ensures ToolStep(s, fault, copied, built).place == REMOVE ==> s.place == CLEAN_UP && s.published.Some? && s.target == s.published
  {
    PassesAtPublish(s);
    OwnAttempt(s, fault, Passes(s), copied, built);
  }

  predicate OwnChange(s: State, t: State) {
    && (t.target != s.target ==>
          || (s.target == None && t.target == s.built && t.linked)
          || (s.place == REMOVE && t.target == None && t.place == FAILED && t.removed == s.target))
    && (t.removed != s.removed ==> s.place == REMOVE && t.removed == s.target)
  }

  lemma PassesAtPublish(s: State)
    ensures Passes(s) && s.place == PUBLISH ==> s.target == None
  {}

  lemma RaiseLeavesTarget(s: State)
    ensures Raise(s).target == s.target && Raise(s).removed == s.removed && Raise(s).linked == s.linked
    ensures Raise(s).place == REFUSED || Raise(s).place == CLEAN_UP
  {}

  lemma PerformOwn(s: State, copied: map<string, Copy>, built: Identity)
    requires s.place < DONE && (s.place == PUBLISH ==> s.target == None)
    ensures OwnChange(s, Perform(s, copied, built)) && Perform(s, copied, built).place <= DONE
  {}

  lemma OwnAttempt(s: State, fault: Fault, passes: bool, copied: map<string, Copy>, built: Identity)
    requires passes && s.place == PUBLISH ==> s.target == None
    ensures OwnChange(s, Attempt(s, fault, passes, copied, built))
    ensures Attempt(s, fault, passes, copied, built).place == REMOVE ==>
      s.place == CLEAN_UP && s.published.Some? && s.target == s.published
  {
    if s.place < DONE {
      RaiseLeavesTarget(s);
      if passes {
        PerformOwn(s, copied, built);
        RaiseLeavesTarget(Perform(s, copied, built));
      }
    }
  }

  // ----- Every run -----

  /** The run has come to this step without an error. */
  predicate Reached(s: State, place: nat) { place <= s.place <= DONE }

  /** What holds wherever the run is. */
  ghost predicate Sound(s: State) {
    && s.place <= UNCLEAN
    && (Reached(s, COPY_FAMILY) ==> "" in s.first)
    && (Reached(s, BUILD) ==> BackupMatches(s.first, s.backup))
    && (Reached(s, FINAL_SNAPSHOT) ==> s.built.Some?)
    && (Reached(s, PUBLISH) ==> s.published == s.built)
    && (Reached(s, CHECK_PUBLISHED) ==> s.linked)
    && (s.linked ==> s.published.Some?)
    && (Reached(s, CHECK_TARGET) ==> SameFamily(s.first, s.checked))
    && (s.place == DONE ==> s.atExit == s.published)
    && (s.place == FAILED && s.published.Some? ==> s.atExit != s.published)
    && (s.place == REMOVE ==> s.published.Some?)
    && (s.place == REFUSED || s.place == PREFLIGHT ==> !s.linked)
  }

  lemma PerformKeepsSound(s: State, copied: map<string, Copy>, built: Identity)
    requires Sound(s) && Passes(s) && s.place < DONE
    ensures Sound(Perform(s, copied, built))
  {}

  lemma StepKeepsSound(s: State, e: Event)
    requires Sound(s)
    ensures Sound(Step(s, e))
  {
    if e.Tool? {
      if Passes(s) && s.place < DONE {
        PerformKeepsSound(s, e.copied, e.built);
      }
      AttemptKeepsSound(s, e.fault, Passes(s), e.copied, e.built);
    }
  }

  lemma AttemptKeepsSound(s: State, fault: Fault, passes: bool, copied: map<string, Copy>, built: Identity)
    requires Sound(s) && (passes && s.place < DONE ==> Sound(Perform(s, copied, built)))
    ensures Sound(Attempt(s, fault, passes, copied, built))
  {}

  lemma {:induction false} RunIsSound(source: Family, target: Option<Identity>, events: seq<Event>)
    ensures Sound(Run(Initial(source, target), events))
  {
    if events != [] {
      RunIsSound(source, target, events[..|events| - 1]);
      StepKeepsSound(Run(Initial(source, target), events[..|events| - 1]), events[|events| - 1]);
    }
  }

  lemma SoundEnd(s: State)
    requires Sound(s)
    ensures s.place == FAILED && s.linked ==> s.published.Some? && s.atExit != s.published
    ensures Ended(s) && s.linked && s.atExit == s.published ==> s.place == DONE || s.place == UNCLEAN
  {}

  /** A run that fails, at whatever step and whatever others did meanwhile, leaves
      at the target path nothing it published, unless its error handler failed too;
      a refused run never published. */
  lemma FailureLeavesNothing(source: Family, target: Option<Identity>, events: seq<Event>)
    ensures var s := Run(Initial(source, target), events);
      && (s.place == FAILED && s.linked ==> s.published.Some? && s.atExit != s.published)
      && (s.place == REFUSED ==> !s.linked)
      && (Ended(s) && s.linked && s.atExit == s.published ==> s.place == DONE || s.place == UNCLEAN)
  {
    RunIsSound(source, target, events);
    SoundEnd(Run(Initial(source, target), events));
  }

  // ----- What the error handler removes -----

  predicate OnlyOutside(events: seq<Event>) { forall i :: 0 <= i < |events| ==> events[i].Outside? }

  lemma {:induction false} OutsideLeaves(s: State, events: seq<Event>)
    requires OnlyOutside(events)
    ensures var t := Run(s, events);
      && t.place == s.place && t.published == s.published
      && t.target == if events == [] then s.target else events[|events| - 1].target
  {
    if events != [] {
      OutsideLeaves(s, events[..|events| - 1]);
      assert events[|events| - 1].Outside?;
    }
  }

  /** The handler finds the published file, others act, the handler removes: the
      removed file is the published one if and only if nobody changed the target
      path in between, or the last who did put that very file there. Otherwise it is
      a file of somebody else. */
  lemma RemovesOwnExactly(s: State, between: seq<Event>, fault: Fault, copied: map<string, Copy>, built: Identity)
    requires s.place == CLEAN_UP && s.published.Some? && s.target == s.published && fault != Before
    requires OnlyOutside(between)
    ensures var found := ToolStep(s, fault, copied, built);
      var t := ToolStep(Run(found, between), fault, copied, built);
      && found.place == REMOVE && t.place == FAILED && t.target == None
      && t.removed == (if between == [] then s.published else between[|between| - 1].target)
      && (t.removed == s.published <==> between == [] || between[|between| - 1].target == s.published)
  {
    OutsideLeaves(ToolStep(s, fault, copied, built), between);
  }

  /** A run that succeeds left its own verified build at the target path, copied a
      backup whose sizes and digests are those of the first snapshot, and saw the
      source family equal to that snapshot after publication. */
  lemma SuccessIsVerified(source: Family, target: Option<Identity>, events: seq<Event>)
    ensures var s := Run(Initial(source, target), events);
      s.place == DONE ==>
        && s.linked && s.built.Some? && s.atExit == s.built
        && "" in s.first && BackupMatches(s.first, s.backup)
        && SameFamily(s.first, s.checked)
  {
    RunIsSound(source, target, events);
  }

  /** While the source files are held against writers, as on Windows, others leave
      the source alone. */
  predicate SourceHeld(events: seq<Event>, source: Family) {
    forall e :: e in events && e.Outside? ==> e.source == source
  }

  predicate HeldAt(s: State, source: Family) {
    s.source == source && (Reached(s, COPY_FAMILY) ==> s.first == source)
  }

  lemma AttemptHeld(s: State, fault: Fault, passes: bool, copied: map<string, Copy>, built: Identity, source: Family)
    requires HeldAt(s, source)
    ensures HeldAt(Attempt(s, fault, passes, copied, built), source)
  {}

  lemma {:induction false} HeldSourceStays(source: Family, target: Option<Identity>, events: seq<Event>)
    requires SourceHeld(events, source)
    ensures HeldAt(Run(Initial(source, target), events), source)
  {
    if events != [] {
      var s, e := Run(Initial(source, target), events[..|events| - 1]), events[|events| - 1];
      assert e in events;
      HeldSourceStays(source, target, events[..|events| - 1]);
      if e.Tool? {
        AttemptHeld(s, e.fault, Passes(s), e.copied, e.built, source);
      }
    }
  }

  /** Then a successful run ends with the source it started from, and its backup is
      a copy of that. */
  lemma HeldSourceIsBackedUp(source: Family, target: Option<Identity>, events: seq<Event>)
    requires SourceHeld(events, source)
    ensures var s := Run(Initial(source, target), events);
      s.place == DONE ==> s.source == source && BackupMatches(source, s.backup)
  {
    HeldSourceStays(source, target, events);
    RunIsSound(source, target, events);
  }

  // ----- Left alone, it succeeds -----

  function QuietSteps(n: nat, copied: map<string, Copy>, built: Identity): seq<Event> {
    if n == 0 then [] else QuietSteps(n - 1, copied, built) + [Tool(NoFault, copied, built)]
  }

  lemma RunSnoc(s: State, events: seq<Event>, e: Event)
    ensures Run(s, events + [e]) == Step(Run(s, events), e)
  {
    assert (events + [e])[..|events|] == events;
  }

  /** On the way of a run that nobody disturbs. */
  ghost predicate OnTheWay(s: State, n: nat, source: Family, copied: map<string, Copy>, built: Identity) {
    && s.place == n && s.source == source
    && s.target == (if n > PUBLISH then Some(built) else None)
    && (n > FIRST_SNAPSHOT ==> s.first == source)
    && (n > COPY_FAMILY ==> s.backup == copied)
    && (n > BUILD ==> s.built == Some(built))
    && (n > IDENTIFY ==> s.published == Some(built))
  }

  lemma OnTheWayPasses(s: State, source: Family, copied: map<string, Copy>, built: Identity)
    requires "" in source && BackupMatches(source, copied) && s.place < DONE
    requires OnTheWay(s, s.place, source, copied, built)
    ensures Passes(s)
  {}

  lemma OnTheWayOn(s: State, source: Family, copied: map<string, Copy>, built: Identity)
    requires s.place < DONE && OnTheWay(s, s.place, source, copied, built)
    ensures OnTheWay(Attempt(s, NoFault, true, copied, built), s.place + 1, source, copied, built)
  {}

  /** Without faults and interference, and with a faithful copy, thirteen steps
      publish the build. */
  lemma {:induction false} UndisturbedRunSucceeds(source: Family, copied: map<string, Copy>, built: Identity, n: nat)
    requires "" in source && BackupMatches(source, copied) && n <= DONE
    ensures OnTheWay(Run(Initial(source, None), QuietSteps(n, copied, built)), n, source, copied, built)
  {
    if n > 0 {
      var s := Run(Initial(source, None), QuietSteps(n - 1, copied, built));
      UndisturbedRunSucceeds(source, copied, built, n - 1);
      OnTheWayPasses(s, source, copied, built);
      OnTheWayOn(s, source, copied, built);
      RunSnoc(Initial(source, None), QuietSteps(n - 1, copied, built), Tool(NoFault, copied, built));
    }
  }

  // ----- A run that removes somebody else's file -----

  /** After the build is published the next check fails, and the handler finds the
      build at the target path. */
  lemma FailsBehindPublication(s: State, copied: map<string, Copy>, built: Identity)
    requires s.place == CHECK_PUBLISHED && s.published == Some(built) && s.target == Some(built)
    ensures var raised := ToolStep(s, Before, copied, built);
      raised.place == CLEAN_UP && raised.published == Some(built) && raised.target == Some(built)
  {}

  /** A build is published, the next check fails, the handler finds the build at the
      target path, somebody replaces it, and the replacement is removed. */
  lemma OthersFileRemoved(source: Family, copied: map<string, Copy>, built: Identity, other: Identity) returns (events: seq<Event>)
    requires "" in source && BackupMatches(source, copied) && other != built
    ensures var s := Run(Initial(source, None), events);
      s.place == FAILED && s.target == None && s.published == Some(built) && s.removed == Some(other)
  {
    var start, quiet := Initial(source, None), QuietSteps(CHECK_PUBLISHED, copied, built);
    var fails, swap, goesOn := Tool(Before, copied, built), Outside(source, Some(other)), Tool(NoFault, copied, built);
    UndisturbedRunSucceeds(source, copied, built, CHECK_PUBLISHED);
    FailsBehindPublication(Run(start, quiet), copied, built);
    RunSnoc(start, quiet, fails);
    var raised := Run(start, quiet + [fails]);
    RemovalOfReplacement(raised, source, copied, built, other);
    RunSnoc(start, quiet + [fails], goesOn);
    RunSnoc(start, quiet + [fails] + [goesOn], swap);
    events := quiet + [fails] + [goesOn] + [swap] + [goesOn];
    RunSnoc(start, quiet + [fails] + [goesOn] + [swap], goesOn);
  }

  lemma RemovalOfReplacement(s: State, source: Family, copied: map<string, Copy>, built: Identity, other: Identity)
    requires s.place == CLEAN_UP && s.published == Some(built) && s.target == Some(built)
    ensures var goesOn, swap := Tool(NoFault, copied, built), Outside(source, Some(other));
      var t := Step(Step(Step(s, goesOn), swap), goesOn);
      t.place == FAILED && t.target == None && t.published == Some(built) && t.removed == Some(other)
  {}

  // ----- The tool -----

  /** _assert_same_family: membership first, then file by file. */
  method AssertSameFamily(expected: Family, actual: Family) returns (same: bool)
    ensures same <==> SameFamily(expected, actual)
  {
    if expected.Keys != actual.Keys {
      return false;
    }
    var suffixes := expected.Keys;
    while suffixes != {}
      invariant suffixes <= expected.Keys
      invariant forall k :: k in expected && k !in suffixes ==> SameFile(expected[k], actual[k])
      decreases |suffixes|
    {
      var k :| k in suffixes;
      if !SameFile(expected[k], actual[k]) {
        return false;
      }
      suffixes := suffixes - {k};
    }
    return true;
  }

  /** _verify_raw_backup: file by file. */
  method VerifyRawBackup(family: Family, backup: map<string, Copy>) returns (ok: bool)
    ensures ok <==> BackupMatches(family, backup)
  {
    var suffixes := family.Keys;
    while suffixes != {}
      invariant suffixes <= family.Keys
      invariant forall k :: k in family && k !in suffixes ==>
        k in backup && backup[k] == Copy(family[k].size, family[k].sha256)
      decreases |suffixes|
    {
      var k :| k in suffixes;
      if k !in backup || backup[k].size != family[k].size || backup[k].sha256 != family[k].sha256 {
        return false;
      }
      suffixes := suffixes - {k};
    }
    return true;
  }

  class RecoveryRun {
    var place: nat
    var source: Family
    var target: Option<Identity>
    var first: Family
    var backup: map<string, Copy>
    var built: Option<Identity>
    var published: Option<Identity>
    var linked: bool
    var checked: Family
    var atExit: Option<Identity>
    var removed: Option<Identity>

    ghost function Now(): State
      reads this
    {
      State.State(place, source, target, first, backup, built, published, linked, checked, atExit, removed)
    }

    ghost predicate Valid()
      reads this
    {
      Sound(Now())
    }

    constructor (source: Family, target: Option<Identity>)
      ensures Valid() && Now() == Initial(source, target)
    {
      place, this.source, this.target := PREFLIGHT, source, target;
      first, backup, built, published, linked := map[], map[], None, None, false;
      checked, atExit, removed := map[], None, None;
    }

    /** The check of the step the tool is at. */
    method Check() returns (passes: bool)
      ensures passes == Passes(Now())
    {
      if place == PREFLIGHT || place == PUBLISH {
        passes := target.None?;
      } else if place == FIRST_SNAPSHOT {
        passes := "" in source;
      } else if place == SECOND_SNAPSHOT || place == FINAL_SNAPSHOT {
        passes := AssertSameFamily(first, source);
        if passes {
          passes := VerifyRawBackup(first, backup);
        }
      } else if place == CHECK_SOURCE {
        passes := AssertSameFamily(first, source);
      } else if place == CHECK_PUBLISHED || place == CHECK_TARGET || place == LAST_CHECK {
        passes := target == published;
      } else {
        passes := true;
      }
    }

    /** The effect of the step the tool is at. */
    method Apply(copied: map<string, Copy>, result: Identity)
      requires place < DONE
      modifies this
      ensures Now() == Perform(old(Now()), copied, result)
    {
      if place == FIRST_SNAPSHOT {
        first := source;
      } else if place == COPY_FAMILY {
        backup := copied;
      } else if place == BUILD {
        built := Some(result);
      } else if place == IDENTIFY {
        published := built;
      } else if place == PUBLISH {
        target, linked := built, true;
      } else if place == CHECK_SOURCE {
        checked := source;
      } else if place == LAST_CHECK {
        atExit := target;
      }
      place := place + 1;
    }

    method Fail()
      modifies this
      ensures Now() == Raise(old(Now()))
    {
      if place == PREFLIGHT {
        place, atExit := REFUSED, target;
      } else {
        place := CLEAN_UP;
      }
    }

    /** The error handler looks whether the target is the published file ... */
    method FindOwn(fault: Fault)
      modifies this`place, this`atExit
      ensures Now() == Match(old(Now()), fault)
    {
      if fault == Before {
        place, atExit := UNCLEAN, target;
      } else if published.Some? && target == published {
        place := REMOVE;
      } else {
        place, atExit := FAILED, target;
      }
    }

    /** ... and then removes what is at the target path. */
    method Unlink(fault: Fault)
      modifies this`place, this`atExit, this`target, this`removed
      ensures Now() == Remove(old(Now()), fault)
    {
      if fault == Before {
        place := UNCLEAN;
      } else {
        removed, target, place := target, None, FAILED;
      }
      atExit := target;
    }

    /** A step before the error handler. */
    method TryStep(fault: Fault, copied: map<string, Copy>, result: Identity)
      requires place < DONE
      modifies this
      ensures Now() == ToolStep(old(Now()), fault, copied, result)
    {
      if fault == Before {
        Fail();
        return;
      }
      var passes := Check();
      if !passes {
        Fail();
        return;
      }
      Apply(copied, result);
      if fault == After {
        Fail();
      }
    }

    /** One step of the recovery, or of its error handler. It changes the target path
        only to publish where nothing was, or to remove what is there after it found
        its own file there. */
    method Advance(fault: Fault, copied: map<string, Copy>, result: Identity)
      requires Valid()
      modifies this
      ensures Valid() && Now() == Step(old(Now()), Tool(fault, copied, result))
      ensures OwnChange(old(Now()), Now())
    {
      TouchesOnlyItsOwn(Now(), fault, copied, result);
      StepKeepsSound(Now(), Tool(fault, copied, result));
      if place == DONE || place >= FAILED {
        return;
      }
      if place == CLEAN_UP {
        FindOwn(fault);
        return;
      }
      if place == REMOVE {
        Unlink(fault);
        return;
      }
      TryStep(fault, copied, result);
    }

    /** Somebody else changes the files. */
    method Disturb(source: Family, target: Option<Identity>)
      requires Valid()
      modifies this`source, this`target
      ensures Valid() && Now() == Step(old(Now()), Outside(source, target))
    {
      StepKeepsSound(Now(), Outside(source, target));
      this.source, this.target := source, target;
    }

    /** A whole run, with what others do to the files in between. */
    method Recover(events: seq<Event>)
      requires Valid()
      modifies this
      ensures Valid() && Now() == Run(old(Now()), events)
      ensures place == DONE ==>
        && linked && built.Some? && atExit == built
        && BackupMatches(first, backup) && SameFamily(first, checked)
      ensures place == FAILED && linked ==> atExit != published
    {
      for i := 0 to |events|
        invariant Valid() && Now() == Run(old(Now()), events[..i])
      {
        assert events[..i + 1][..i] == events[..i];
        match events[i] {
          case Tool(fault, copied, result) => Advance(fault, copied, result);
          case Outside(others, there) => Disturb(others, there);
        }
      }
      assert events[..|events|] == events;
    }
  }
}
