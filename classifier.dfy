/**
 * The machine records handed to the report and the rule that places each of
 * them in the "servers available", "servers with potential issues" and
 * "failed state" sections.
 */
module Classifier {
  import opened Text

  datatype Option<T> = None | Some(value: T)

  /**
   * A machine record as the inventory returns it. `owner` is the owner's
   * username when the machine has an owner.
   */
  datatype Machine = Machine(
    hostname: string,
    systemId: string,
    statusName: string,
    statusMessage: Option<string>,
    tags: seq<string>,
    owner: Option<string>)

  /** The three report sections. */
  datatype Section = Available | PotentialIssue | Failed

  /** The status, folded to lower case, mentions "failed" or "broken". */
  predicate IsFailedStatus(status: string) {
    Contains(Lower(status), "failed") || Contains(Lower(status), "broken")
  }

  /** `[tag.lower() for tag in tags]`. */
  function LowerAll(tags: seq<string>): seq<string> {
    seq(|tags|, i requires 0 <= i < |tags| => Lower(tags[i]))
  }

  /** `'available' in [tag.lower() for tag in tags]`. */
  predicate HasAvailableTag(tags: seq<string>) {
    "available" in LowerAll(tags)
  }

  /** `re.match(r'^DCOPS-.*', tag, re.IGNORECASE)` succeeds: the tag starts with "DCOPS-" in any case. */
  predicate IsDcopsTag(tag: string) {
    StartsWith(Lower(tag), "dcops-")
  }

  /** `any(dcops_pattern.match(tag) for tag in tags)`. */
  predicate HasDcopsTag(tags: seq<string>) {
    exists tag :: tag in tags && IsDcopsTag(tag)
  }

  /**
   * Whether the classification loop appends machine `m` to the list of
   * section `sec`. The failure test comes first and excludes the other two.
   */
  predicate Belongs(m: Machine, sec: Section) {
    match sec
    case Failed => IsFailedStatus(m.statusName)
    case Available =>
      !IsFailedStatus(m.statusName) && m.statusName == "Ready" && HasAvailableTag(m.tags)
    case PotentialIssue =>
      !IsFailedStatus(m.statusName) && m.statusName == "Ready" && HasDcopsTag(m.tags)
  }

  /** The machines of `ms` that belong to `sec`, in the order of `ms`. */
  function Members(ms: seq<Machine>, sec: Section): seq<Machine> {
    if ms == [] then []
    else
      var last := ms[|ms| - 1];
      Members(ms[..|ms| - 1], sec) + (if Belongs(last, sec) then [last] else [])
  }

  /**
   * The classification loop of the report: one pass over the machines,
   * appending each to the lists it qualifies for.
   */
  method Classify(machines: seq<Machine>)
    returns (available: seq<Machine>, potentialIssue: seq<Machine>, failed: seq<Machine>)
    ensures available == Members(machines, Available)
    ensures potentialIssue == Members(machines, PotentialIssue)
    ensures failed == Members(machines, Failed)
  {
    available, potentialIssue, failed := [], [], [];
    for i := 0 to |machines|
      invariant available == Members(machines[..i], Available)
      invariant potentialIssue == Members(machines[..i], PotentialIssue)
      invariant failed == Members(machines[..i], Failed)
    {
      var machine := machines[i];
      assert machines[..i + 1][..i] == machines[..i];
      if Contains(Lower(machine.statusName), "failed") || Contains(Lower(machine.statusName), "broken") {
        failed := failed + [machine];
        continue;
      }
      if machine.statusName == "Ready" {
        var tagsLower := LowerAll(machine.tags);
        if "available" in tagsLower {
          available := available + [machine];
        }
        if exists tag :: tag in machine.tags && IsDcopsTag(tag) {
          potentialIssue := potentialIssue + [machine];
        }
      }
    }
    assert machines[..|machines|] == machines;
  }

  /** Classification looks only at the status and the tags of a machine. */
  lemma BelongsDependsOnlyOnStatusAndTags(m: Machine, m': Machine, sec: Section)
    requires m.statusName == m'.statusName && m.tags == m'.tags
    ensures Belongs(m, sec) == Belongs(m', sec)
  {
  }

  /** A machine is listed in a section exactly when it is one of the machines and qualifies. */
  lemma {:induction false} MembersIn(ms: seq<Machine>, sec: Section, m: Machine)
    ensures m in Members(ms, sec) <==> m in ms && Belongs(m, sec)
  {
    if ms != [] {
      var init := ms[..|ms| - 1];
      MembersIn(init, sec, m);
      assert ms == init + [ms[|ms| - 1]];
    }
  }

  /**
   * Each occurrence of a machine in the input yields exactly one entry in every
   * section it qualifies for and none in the others.
   */
  lemma {:induction false} MembersCount(ms: seq<Machine>, sec: Section, m: Machine)
    ensures multiset(Members(ms, sec))[m] == if Belongs(m, sec) then multiset(ms)[m] else 0
  {
    if ms != [] {
      var init := ms[..|ms| - 1];
      MembersCount(init, sec, m);
      assert ms == init + [ms[|ms| - 1]];
    }
  }

  /** `sub` can be obtained from `s` by deleting elements, keeping the order of the rest. */
  predicate IsSubsequence<T(==)>(sub: seq<T>, s: seq<T>)
    decreases |s|
  {
    if sub == [] then true
    else if s == [] then false
    else
      (sub[|sub| - 1] == s[|s| - 1] && IsSubsequence(sub[..|sub| - 1], s[..|s| - 1]))
      || IsSubsequence(sub, s[..|s| - 1])
  }

  /** Each section keeps the input order of the machines. */
  lemma {:induction false} MembersSubsequence(ms: seq<Machine>, sec: Section)
    ensures IsSubsequence(Members(ms, sec), ms)
  {
    if ms != [] {
      var init := ms[..|ms| - 1];
      MembersSubsequence(init, sec);
      var sub := Members(ms, sec);
      if Belongs(ms[|ms| - 1], sec) {
        assert sub[..|sub| - 1] == Members(init, sec);
      } else if sub != [] {
        assert sub == Members(init, sec);
      }
    }
  }

  /**
   * Two input machines with the same status and tags are listed in the same
   * sections, whatever their hostnames, system IDs, owners and messages.
   */
  lemma SameStatusAndTagsSameLists(ms: seq<Machine>, m: Machine, m': Machine, sec: Section)
    requires m in ms && m' in ms
    requires m.statusName == m'.statusName && m.tags == m'.tags
    ensures m in Members(ms, sec) <==> m' in Members(ms, sec)
  {
    MembersIn(ms, sec, m);
    MembersIn(ms, sec, m');
    BelongsDependsOnlyOnStatusAndTags(m, m', sec);
  }

  /** A failed or broken machine is listed as failed and in neither other section, whatever its tags. */
  lemma FailedIsExclusive(ms: seq<Machine>, m: Machine)
    requires m in ms && IsFailedStatus(m.statusName)
    ensures m in Members(ms, Failed)
    ensures m !in Members(ms, Available) && m !in Members(ms, PotentialIssue)
  {
    MembersIn(ms, Failed, m);
    MembersIn(ms, Available, m);
    MembersIn(ms, PotentialIssue, m);
  }

  /** The status test is case-insensitive: "failed" in any case anywhere in the status makes it a failure. */
  lemma FailedInAnyCase(status: string, i: int)
    requires 0 <= i && i + 6 <= |status|
    requires Lower(status[i..i + 6]) == "failed" || Lower(status[i..i + 6]) == "broken"
    ensures IsFailedStatus(status)
  {
    LowerSlice(status, i, i + 6);
    assert OccursAt(Lower(status), Lower(status[i..i + 6]), i);
    ContainsIff(Lower(status), "failed");
    ContainsIff(Lower(status), "broken");
  }

  /** Only the exact status "Ready" admits a machine to the available or potential-issue section. */
  lemma ReadyGate(ms: seq<Machine>, m: Machine)
    requires m in Members(ms, Available) || m in Members(ms, PotentialIssue)
    ensures m.statusName == "Ready"
  {
    MembersIn(ms, Available, m);
    MembersIn(ms, PotentialIssue, m);
  }

  /** A machine that is neither failed/broken nor exactly "Ready" is listed nowhere. */
  lemma NeitherFailedNorReady(ms: seq<Machine>, m: Machine)
    requires !IsFailedStatus(m.statusName) && m.statusName != "Ready"
    ensures m !in Members(ms, Available)
    ensures m !in Members(ms, PotentialIssue)
    ensures m !in Members(ms, Failed)
  {
    MembersIn(ms, Available, m);
    MembersIn(ms, PotentialIssue, m);
    MembersIn(ms, Failed, m);
  }

  /** "ready" and "READY" are not "Ready": machines with those statuses are listed nowhere. */
  lemma WrongCaseReadyListedNowhere(ms: seq<Machine>, m: Machine)
    requires m.statusName == "ready" || m.statusName == "READY"
    ensures m !in Members(ms, Available)
    ensures m !in Members(ms, PotentialIssue)
    ensures m !in Members(ms, Failed)
  {
    ShorterNeverContains(Lower(m.statusName), "failed");
    ShorterNeverContains(Lower(m.statusName), "broken");
    NeitherFailedNorReady(ms, m);
  }

  /** The exact status "Ready" never reads as failed. */
  lemma ReadyIsNotFailed()
    ensures !IsFailedStatus("Ready")
  {
    ShorterNeverContains(Lower("Ready"), "failed");
    ShorterNeverContains(Lower("Ready"), "broken");
  }

  /** Listed as available iff a "Ready" machine of the input has a tag that folds to "available". */
  lemma AvailableIff(ms: seq<Machine>, m: Machine)
    ensures m in Members(ms, Available) <==>
      m in ms && m.statusName == "Ready" && exists tag :: tag in m.tags && Lower(tag) == "available"
  {
    MembersIn(ms, Available, m);
    ReadyIsNotFailed();
    var lowered := LowerAll(m.tags);
    if "available" in lowered {
      var i :| 0 <= i < |lowered| && lowered[i] == "available";
      assert m.tags[i] in m.tags;
    }
    if exists tag :: tag in m.tags && Lower(tag) == "available" {
      var tag :| tag in m.tags && Lower(tag) == "available";
      var i :| 0 <= i < |m.tags| && m.tags[i] == tag;
      assert lowered[i] == "available";
    }
  }

  /** Listed as a potential issue iff a "Ready" machine of the input has a tag starting with "DCOPS-" in any case. */
  lemma PotentialIssueIff(ms: seq<Machine>, m: Machine)
    ensures m in Members(ms, PotentialIssue) <==>
      m in ms && m.statusName == "Ready"
      && exists tag :: tag in m.tags && |tag| >= 6 && Lower(tag[..6]) == "dcops-"
  {
    MembersIn(ms, PotentialIssue, m);
    ReadyIsNotFailed();
    forall tag | tag in m.tags
      ensures IsDcopsTag(tag) <==> |tag| >= 6 && Lower(tag[..6]) == "dcops-"
    {
      if |tag| >= 6 {
        LowerSlice(tag, 0, 6);
      }
    }
  }

  /** A machine without tags is neither available nor a potential issue. */
  lemma NoTagsNoMatch(ms: seq<Machine>, m: Machine)
    requires m.tags == []
    ensures m !in Members(ms, Available) && m !in Members(ms, PotentialIssue)
  {
    MembersIn(ms, Available, m);
    MembersIn(ms, PotentialIssue, m);
  }

  /** The two tag tests are independent: a "Ready" machine with both tags is in both sections. */
  lemma AvailableAndPotentialIssue(ms: seq<Machine>, m: Machine, a: string, d: string)
    requires m in ms && m.statusName == "Ready"
    requires a in m.tags && Lower(a) == "available"
    requires d in m.tags && IsDcopsTag(d)
    ensures m in Members(ms, Available) && m in Members(ms, PotentialIssue)
  {
    AvailableIff(ms, m);
    MembersIn(ms, PotentialIssue, m);
    ReadyIsNotFailed();
  }
}
