/** The steps of the recovery in terms of files: what each one tests, what it changes,
    and what a successful run has seen (tools/windows/recover_runtime_database.py). */
module PublicationRules {
  import opened Wrappers
  import opened RecoveryPublication

  // ----- Files -----

  /** The same members, and of each the size, the device, the inode and the digest; the
      time may differ. */
  ghost predicate SameMembers(a: Family, b: Family) {
    && (forall k :: k in a <==> k in b)
    && forall k :: k in a && k in b ==>
         a[k].size == b[k].size && a[k].device == b[k].device && a[k].inode == b[k].inode && a[k].sha256 == b[k].sha256
  }

  /** Every member was copied with its size and its digest. */
  predicate CopiedWhole(family: Family, backup: map<string, Copy>) {
    forall k :: k in family ==> k in backup && backup[k].size == family[k].size && backup[k].sha256 == family[k].sha256
  }

  lemma SameFamilyExactly(a: Family, b: Family)
    ensures SameFamily(a, b) <==> SameMembers(a, b)
  {}

  lemma BackupExactly(family: Family, backup: map<string, Copy>)
    ensures BackupMatches(family, backup) <==> CopiedWhole(family, backup)
  {}

  /** A change of any one of the four fields, or of the members, is noticed. */
  lemma EveryChangeIsNoticed(family: Family, k: string, other: FamilyFile)
    requires k in family
    ensures SameFamily(family, family[k := other]) <==>
            other == family[k].(mtime := other.mtime)
    ensures !SameFamily(family, family - {k})
  {
    SameFamilyExactly(family, family[k := other]);
    assert k in family && k !in family - {k};
  }

  // ----- One step -----

  /** What has to be so for the step to go on. */
  ghost predicate GoesOnFrom(s: State) {
    match s.place
    case 0 => s.target == None
    case 1 => "" in s.source
    case 3 => SameMembers(s.first, s.source) && CopiedWhole(s.first, s.backup)
    case 5 => SameMembers(s.first, s.source) && CopiedWhole(s.first, s.backup)
    case 7 => s.target == None
    case 8 => s.target == s.published
    case 9 => SameMembers(s.first, s.source)
    case 10 => s.target == s.published
    case 12 => s.target == s.published
    case _ => true
  }

  /** What the step leaves; `t` is what was before it but for the place. */
  predicate Leaves(s: State, copied: map<string, Copy>, built: Identity, t: State) {
    && t.place == s.place + 1 && t.source == s.source && t.removed == s.removed
    && t.first == (if s.place == 1 then s.source else s.first)
    && t.backup == (if s.place == 2 then copied else s.backup)
    && t.built == (if s.place == 4 then Some(built) else s.built)
    && t.published == (if s.place == 6 then s.built else s.published)
    && t.target == (if s.place == 7 then s.built else s.target)
    && (t.linked <==> s.linked || s.place == 7)
    && t.checked == (if s.place == 9 then s.source else s.checked)
    && t.atExit == (if s.place == 12 then s.target else s.atExit)
  }

  /** Preflight, snapshot, copy, second snapshot, build, final snapshot, identify,
      publish, and the checks after publication, in this order: a step without a fault
      goes on if and only if its test holds, and then changes what it is for. Otherwise
      nothing but the place changes: a refusal before anything was begun, else the
      error handler. */
  lemma StepGoesOnExactly(s: State, copied: map<string, Copy>, built: Identity)
    requires s.place < 13
    ensures var t := ToolStep(s, NoFault, copied, built);
      if GoesOnFrom(s) then Leaves(s, copied, built, t)
      else t == (if s.place == 0 then s.(place := 17, atExit := s.target) else s.(place := 14))
  {
    SameFamilyExactly(s.first, s.source);
    BackupExactly(s.first, s.backup);
  }

  /** A fault before a step undoes nothing and does nothing, one after it comes too late
      for its effect. */
  lemma FaultsRaise(s: State, copied: map<string, Copy>, built: Identity)
    requires s.place < 13
    ensures ToolStep(s, Before, copied, built) == (if s.place == 0 then s.(place := 17, atExit := s.target) else s.(place := 14))
    ensures var t := ToolStep(s, After, copied, built);
      if GoesOnFrom(s) then exists done :: Leaves(s, copied, built, done) && t == done.(place := 14)
      else t == ToolStep(s, Before, copied, built)
  {
    SameFamilyExactly(s.first, s.source);
    BackupExactly(s.first, s.backup);
    assert GoesOnFrom(s) ==> Leaves(s, copied, built, Perform(s, copied, built));
  }

  /** The error handler and the ends. */
  lemma HandlerExactly(s: State, fault: Fault, copied: map<string, Copy>, built: Identity)
    requires s.place >= 13
    ensures var t := ToolStep(s, fault, copied, built);
      if (s.place == 14 || s.place == 15) && fault == Before then t == s.(place := 18, atExit := s.target)
      else if s.place == 14 then
        t == (if s.published.Some? && s.target == s.published then s.(place := 15) else s.(place := 16, atExit := s.target))
      else if s.place == 15 then t == s.(place := 16, atExit := None, removed := s.target, target := None)
      else t == s
  {}

  /** What a successful run has seen, field by field. */
  lemma SuccessSaw(source: Family, target: Option<Identity>, events: seq<Event>)
    requires Run(Initial(source, target), events).place == 13
    ensures var s := Run(Initial(source, target), events);
      && s.linked && s.built.Some? && s.atExit == s.built && s.published == s.built
      && "" in s.first && CopiedWhole(s.first, s.backup) && SameMembers(s.first, s.checked)
  {
    var s := Run(Initial(source, target), events);
    SuccessIsVerified(source, target, events);
    RunIsSound(source, target, events);
    SameFamilyExactly(s.first, s.checked);
    BackupExactly(s.first, s.backup);
  }
}
