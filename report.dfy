/**
 * The text of the three report sections: one line per machine, sorted by
 * hostname, or a fixed sentence when a section is empty. The banners framing
 * the sections and the printing itself are not modelled.
 */
module Report {
  import opened Text
  import opened Classifier
  import opened Sorting

  /** The owner column: the owner's username, or "Unassigned" for a machine without owner. */
  function OwnerText(m: Machine): string {
    match m.owner
    case Some(username) => username
    case None => "Unassigned"
  }

  /** The message column of a failed machine: empty when there is no message or it is empty. */
  function StatusMessageText(m: Machine): string {
    match m.statusMessage
    case Some(message) => if message == "" then "" else "Message: " + message
    case None => ""
  }

  /**
   * The line printed for machine `m` in section `sec`. `tagRepr` stands for
   * the string form (`str`) of the machine's tag collection.
   */
  function MachineLine(sec: Section, m: Machine, tagRepr: seq<string> -> string): string {
    if sec == Failed then
      "  - Host: " + PadRight(m.hostname, 25) + " System ID: " + PadRight(m.systemId, 12)
      + " Status: " + PadRight(m.statusName, 20) + " " + StatusMessageText(m)
    else
      "  - Host: " + PadRight(m.hostname, 25) + " System ID: " + PadRight(m.systemId, 12)
      + " Owner: " + PadRight(OwnerText(m), 15) + " Tags: " + tagRepr(m.tags)
  }

  /** The sentence printed in place of an empty section. */
  function NoneFound(sec: Section): string {
    match sec
    case Available => "  No machines in 'Ready' state found with the 'available' tag."
    case PotentialIssue => "  No machines in 'Ready' state found with a 'DCOPS-*' tag."
    case Failed => "  No machines found in a failed or broken state."
  }

  /** One line per machine of `ms`, in the order of `ms`. */
  function RenderAll(sec: Section, ms: seq<Machine>, tagRepr: seq<string> -> string): seq<string> {
    seq(|ms|, k requires 0 <= k < |ms| => MachineLine(sec, ms[k], tagRepr))
  }

  /** The body of section `sec` holding the machines `list`. */
  function SectionLines(sec: Section, list: seq<Machine>, tagRepr: seq<string> -> string): seq<string> {
    if list == [] then [NoneFound(sec)] else RenderAll(sec, SortByHostname(list), tagRepr)
  }

  /**
   * The report: classify the machines, then render each section. Returns the
   * bodies of the available, potential-issue and failed sections.
   */
  method GenerateReport(machines: seq<Machine>, tagRepr: seq<string> -> string)
    returns (available: seq<string>, potentialIssue: seq<string>, failed: seq<string>)
    ensures available == SectionLines(Available, Members(machines, Available), tagRepr)
    ensures potentialIssue == SectionLines(PotentialIssue, Members(machines, PotentialIssue), tagRepr)
    ensures failed == SectionLines(Failed, Members(machines, Failed), tagRepr)
    ensures machines == [] ==>
      available == [NoneFound(Available)] && potentialIssue == [NoneFound(PotentialIssue)]
      && failed == [NoneFound(Failed)]
  {
    var availableServers, potentialIssueServers, failedServers := Classify(machines);
    available := SectionLines(Available, availableServers, tagRepr);
    potentialIssue := SectionLines(PotentialIssue, potentialIssueServers, tagRepr);
    failed := SectionLines(Failed, failedServers, tagRepr);
  }

  /**
   * A non-empty section prints one line for each of its machines, rendered from
   * a sequence that is sorted by hostname, a permutation of the section, and
   * stable; an empty one prints only its sentence.
   */
  lemma SectionBody(sec: Section, list: seq<Machine>, tagRepr: seq<string> -> string)
    ensures list == [] ==> SectionLines(sec, list, tagRepr) == [NoneFound(sec)]
    ensures list != [] ==>
      var sorted := SortByHostname(list);
      SectionLines(sec, list, tagRepr) == RenderAll(sec, sorted, tagRepr)
      && |SectionLines(sec, list, tagRepr)| == |list|
      && SortedByHostname(sorted)
      && multiset(sorted) == multiset(list)
      && forall h :: WithHostname(sorted, h) == WithHostname(list, h)
  {
    if list != [] {
      SortIsSorted(list);
      SortIsPermutation(list);
      assert |SortByHostname(list)| == |multiset(SortByHostname(list))|;
      forall h {
        SortIsStable(list, h);
      }
    }
  }

  /**
   * A section that has machines prints the line of every input machine that
   * qualifies for it and no other line.
   */
  lemma SectionShowsItsMachines(ms: seq<Machine>, sec: Section, tagRepr: seq<string> -> string, line: string)
    requires Members(ms, sec) != []
    ensures line in SectionLines(sec, Members(ms, sec), tagRepr) <==>
      exists m :: m in ms && Belongs(m, sec) && line == MachineLine(sec, m, tagRepr)
  {
    var list := Members(ms, sec);
    var sorted := SortByHostname(list);
    var lines := SectionLines(sec, list, tagRepr);
    SortIsPermutation(list);
    if line in lines {
      var k :| 0 <= k < |lines| && lines[k] == line;
      assert |sorted| == |multiset(sorted)|;
      assert sorted[k] in multiset(list);
      MembersIn(ms, sec, sorted[k]);
    }
    if exists m :: m in ms && Belongs(m, sec) && line == MachineLine(sec, m, tagRepr) {
      var m :| m in ms && Belongs(m, sec) && line == MachineLine(sec, m, tagRepr);
      MembersIn(ms, sec, m);
      assert m in multiset(sorted);
      var k :| 0 <= k < |sorted| && sorted[k] == m;
      assert lines[k] == line;
    }
  }

  /** Every line starts with the host label and the full, uncut hostname. */
  lemma LineStartsWithHost(sec: Section, m: Machine, tagRepr: seq<string> -> string)
    ensures StartsWith(MachineLine(sec, m, tagRepr), "  - Host: " + m.hostname)
  {
  }

  /**
   * When every field fits its width, the columns of an available or
   * potential-issue line sit at fixed offsets, the owner column showing the
   * username or "Unassigned".
   */
  lemma OwnerLineLayout(sec: Section, m: Machine, tagRepr: seq<string> -> string)
    requires sec != Failed
    requires |m.hostname| <= 25 && |m.systemId| <= 12 && |OwnerText(m)| <= 15
    ensures var line := MachineLine(sec, m, tagRepr);
      |line| == 89 + |tagRepr(m.tags)|
      && line[..10] == "  - Host: "
      && line[10..35] == PadRight(m.hostname, 25)
      && line[35..47] == " System ID: "
      && line[47..59] == PadRight(m.systemId, 12)
      && line[59..67] == " Owner: "
      && line[67..82] == PadRight(if m.owner.None? then "Unassigned" else m.owner.value, 15)
      && line[82..89] == " Tags: "
      && line[89..] == tagRepr(m.tags)
  {
  }

  /**
   * When every field fits its width, the columns of a failed line sit at fixed
   * offsets, and the line ends with the status message only when there is a
   * non-empty one.
   */
  lemma FailedLineLayout(m: Machine, tagRepr: seq<string> -> string)
    requires |m.hostname| <= 25 && |m.systemId| <= 12 && |m.statusName| <= 20
    ensures var line := MachineLine(Failed, m, tagRepr);
      line[..10] == "  - Host: "
      && line[10..35] == PadRight(m.hostname, 25)
      && line[35..47] == " System ID: "
      && line[47..59] == PadRight(m.systemId, 12)
      && line[59..68] == " Status: "
      && line[68..88] == PadRight(m.statusName, 20)
      && line[88..89] == " "
      && (if m.statusMessage.Some? && m.statusMessage.value != ""
          then line[89..] == "Message: " + m.statusMessage.value
          else |line| == 89)
  {
    var f := "  - Host: " + PadRight(m.hostname, 25) + " System ID: " + PadRight(m.systemId, 12)
             + " Status: " + PadRight(m.statusName, 20) + " ";
    assert MachineLine(Failed, m, tagRepr) == f + StatusMessageText(m);
  }

  /**
   * At any field width, the owner column of an available or potential-issue
   * line holds the owner's username, or "Unassigned" when there is no owner,
   * padded to at least 15 columns and followed by the tags.
   */
  lemma OwnerColumn(sec: Section, m: Machine, tagRepr: seq<string> -> string)
    requires sec != Failed
    ensures
      var line := MachineLine(sec, m, tagRepr);
      var k := 10 + |PadRight(m.hostname, 25)| + 12 + |PadRight(m.systemId, 12)| + 8;
      var owner := if m.owner.None? then "Unassigned" else m.owner.value;
      var w := |PadRight(owner, 15)|;
      k + w + 7 <= |line|
      && line[k - 8..k] == " Owner: "
      && line[k..k + w] == PadRight(owner, 15)
      && line[k + w..k + w + 7] == " Tags: "
      && line[k + w + 7..] == tagRepr(m.tags)
  {
    var line := MachineLine(sec, m, tagRepr);
    var c := "  - Host: " + PadRight(m.hostname, 25) + " System ID: " + PadRight(m.systemId, 12);
    var d := c + " Owner: ";
    var e := d + PadRight(OwnerText(m), 15);
    var f := e + " Tags: ";
    assert line == f + tagRepr(m.tags);
    assert line[..|f|] == f && line[..|e|] == e && line[..|d|] == d;
  }

  /**
   * At any field width, a failed line ends, after the padded status and one
   * space, with "Message: " and the status message when the message is
   * present and non-empty, and with nothing otherwise.
   */
  lemma MessageColumn(m: Machine, tagRepr: seq<string> -> string)
    ensures
      var line := MachineLine(Failed, m, tagRepr);
      var k := 10 + |PadRight(m.hostname, 25)| + 12 + |PadRight(m.systemId, 12)| + 9
               + |PadRight(m.statusName, 20)| + 1;
      k <= |line|
      && line[k - 1] == ' '
      && line[k..] == (if m.statusMessage.Some? && m.statusMessage.value != ""
                       then "Message: " + m.statusMessage.value else "")
  {
    var line := MachineLine(Failed, m, tagRepr);
    var f := "  - Host: " + PadRight(m.hostname, 25) + " System ID: " + PadRight(m.systemId, 12)
             + " Status: " + PadRight(m.statusName, 20) + " ";
    assert line == f + StatusMessageText(m);
  }

  /** The three machines of the worked example; `id` is any system ID. */
  function ExampleB(id: string): Machine { Machine("srv-b", id, "Ready", None, ["available"], None) }
  function ExampleA(id: string): Machine { Machine("srv-a", id, "Ready", None, ["DCOPS-1", "available"], None) }
  function ExampleC(id: string): Machine { Machine("srv-c", id, "Broken", None, [], None) }

  /** How each machine of the worked example is classified. */
  lemma ExampleClassified(id: string)
    ensures Belongs(ExampleB(id), Available) && !Belongs(ExampleB(id), PotentialIssue) && !Belongs(ExampleB(id), Failed)
    ensures Belongs(ExampleA(id), Available) && Belongs(ExampleA(id), PotentialIssue) && !Belongs(ExampleA(id), Failed)
    ensures !Belongs(ExampleC(id), Available) && !Belongs(ExampleC(id), PotentialIssue) && Belongs(ExampleC(id), Failed)
  {
    var b, a := ExampleB(id), ExampleA(id);
    ReadyIsNotFailed();
    FailedInAnyCase("Broken", 0);
    assert LowerAll(b.tags)[0] == "available";
    assert LowerAll(a.tags)[1] == "available";
    assert IsDcopsTag(a.tags[0]) && a.tags[0] in a.tags;
    assert Lower("available")[..6] != "dcops-" by {
      assert Lower("available")[0] == 'a';
    }
  }

  /** The three lists the classification loop builds for the worked example. */
  lemma ExampleLists(id: string)
    ensures
      var ms := [ExampleB(id), ExampleA(id), ExampleC(id)];
      Members(ms, Available) == [ExampleB(id), ExampleA(id)]
      && Members(ms, PotentialIssue) == [ExampleA(id)]
      && Members(ms, Failed) == [ExampleC(id)]
  {
    var b, a, c := ExampleB(id), ExampleA(id), ExampleC(id);
    var ms := [b, a, c];
    ExampleClassified(id);
    assert ms[..2] == [b, a] && [b, a][..1] == [b] && [b][..0] == [];
    assert Members([b], Available) == [b] && Members([b], PotentialIssue) == [] && Members([b], Failed) == [];
    assert Members([b, a], Available) == [b, a];
    assert Members([b, a], PotentialIssue) == [a];
    assert Members([b, a], Failed) == [];
  }

  /**
   * The worked example: "srv-b" tagged "available", "srv-a" tagged "DCOPS-1"
   * and "available" (both "Ready"), and a "Broken" "srv-c" give the available
   * section srv-a then srv-b, the potential-issue section srv-a, and the failed
   * section srv-c.
   */
  lemma WorkedExample(id: string)
    ensures
      var b, a, c := ExampleB(id), ExampleA(id), ExampleC(id);
      var ms := [b, a, c];
      SortByHostname(Members(ms, Available)) == [a, b]
      && SortByHostname(Members(ms, PotentialIssue)) == [a]
      && SortByHostname(Members(ms, Failed)) == [c]
  {
    var b, a, c := ExampleB(id), ExampleA(id), ExampleC(id);
    ExampleLists(id);
    assert Less("srv-a", "srv-b");
    assert !AtMost("srv-b", "srv-a");
    assert SortByHostname([a]) == [a];
    assert SortByHostname([c]) == [c];
    assert SortByHostname([b, a]) == Insert(b, [a]);
  }
}
