/** Writing the report: four nested loops over groups that drive the outline writer. */
module ReportWriter {
  import opened Prelude
  import opened HtmlOutline
  import opened WarningReport
  import Ordering

  // ---------------------------------------------------------------- the report as a forest

  function WarningNode(w: Warning): Node {
    Node("warning", FileName(w.filename), [Lineno(w.lineno), NumOccur(w.num)], [])
  }

  function WarningNodes(ws: seq<Warning>): seq<Node> {
    if ws == [] then [] else [WarningNode(ws[0])] + WarningNodes(ws[1..])
  }

  /** The three grouping levels, innermost first. */
  const MESSAGES: nat := 0
  const LOCATIONS: nat := 1
  const CATEGORIES: nat := 2

  function Klass(level: nat): string {
    if level == MESSAGES then "warning_text" else if level == LOCATIONS then "location" else "category"
  }

  function ColumnOf(level: nat): Column {
    if level == MESSAGES then Message else if level == LOCATIONS then Location else Category
  }

  /** The section of a group holds the groups of the next level inside it, or its warnings. */
  function GroupNode(level: nat, g: Group): Node
    decreases level, 1
  {
    Node(Klass(level), Counted(g.key, g.count), [], Inside(level, g.items))
  }

  function Inside(level: nat, items: seq<Warning>): seq<Node>
    decreases level, 0
  {
    if level == 0 then WarningNodes(items)
    else GroupNodes(level - 1, Grouped(items, ColumnOf(level - 1)))
  }

  function GroupNodes(level: nat, gs: seq<Group>): seq<Node>
    decreases level, 2, |gs|
  {
    if gs == [] then [] else [GroupNode(level, gs[0])] + GroupNodes(level, gs[1..])
  }

  function Report(data: seq<Warning>): seq<Node> {
    GroupNodes(CATEGORIES, Grouped(data, Category))
  }

  // ---------------------------------------------------------------- the loops

  lemma SectionParts(out: seq<Event>, node: Node, id: nat)
    requires node.details == []
    ensures out + Section(node, id)
         == out + [Start(id, node.klass, node.html)] + Outline(node.children, id + 1) + [End]
  {
    var start := [Start(id, node.klass, node.html)];
    assert start + Writes([]) == start;
    Associate(out, start + Outline(node.children, id + 1), [End]);
    Associate(out, start, Outline(node.children, id + 1));
  }

  /** Writing the first section of a forest and then the others. */
  lemma FirstSection(node: Node, rest: seq<Node>, out: seq<Event>, id: nat)
    ensures out + Outline([node] + rest, id)
         == out + Section(node, id) + Outline(rest, id + 1 + Size(node.children))
    ensures Size([node] + rest) == 1 + Size(node.children) + Size(rest)
  {
    assert ([node] + rest)[1..] == rest;
    Associate(out, Section(node, id), Outline(rest, id + 1 + Size(node.children)));
  }

  /** Writing group `i` and then the groups behind it. */
  lemma NextGroup(level: nat, gs: seq<Group>, i: nat, out: seq<Event>, id: nat)
    requires i < |gs|
    ensures var node, rest := GroupNode(level, gs[i]), GroupNodes(level, gs[i + 1..]);
            && out + Outline(GroupNodes(level, gs[i..]), id)
            == out + Section(node, id) + Outline(rest, id + 1 + Size(node.children))
            && Size(GroupNodes(level, gs[i..])) == 1 + Size(node.children) + Size(rest)
  {
    assert gs[i..][1..] == gs[i + 1..];
    FirstSection(GroupNode(level, gs[i]), GroupNodes(level, gs[i + 1..]), out, id);
  }

  lemma NoGroups(level: nat, id: nat)
    ensures Outline(GroupNodes(level, []), id) == [] && Size(GroupNodes(level, [])) == 0
  {
  }

  lemma NextWarning(ws: seq<Warning>, i: nat, out: seq<Event>, id: nat)
    requires i < |ws|
    ensures var node, rest := WarningNode(ws[i]), WarningNodes(ws[i + 1..]);
            && out + Outline(WarningNodes(ws[i..]), id) == out + Section(node, id) + Outline(rest, id + 1)
            && Size(WarningNodes(ws[i..])) == 1 + Size(rest)
  {
    assert ws[i..][1..] == ws[i + 1..];
    FirstSection(WarningNode(ws[i]), WarningNodes(ws[i + 1..]), out, id);
  }

  method WriteWarning(w: Warning, writer: HtmlOutlineWriter)
    modifies writer
    ensures writer.fout == old(writer.fout) + Section(WarningNode(w), old(writer.sectionId))
    ensures writer.sectionId == old(writer.sectionId) + 1
  {
    writer.StartSection(FileName(w.filename), "warning");
    writer.WriteDetail(Lineno(w.lineno));
    writer.WriteDetail(NumOccur(w.num));
    writer.EndSection();
    var second := [NumOccur(w.num)];
    assert second[1..] == [] && Writes(second) == [Write(NumOccur(w.num))];
    assert WarningNode(w).details[1..] == second;
  }

  method WriteWarnings(ws: seq<Warning>, writer: HtmlOutlineWriter)
    modifies writer
    ensures writer.fout == old(writer.fout) + Outline(WarningNodes(ws), old(writer.sectionId))
    ensures writer.sectionId == old(writer.sectionId) + Size(WarningNodes(ws))
  {
    ghost var out := writer.fout + Outline(WarningNodes(ws), writer.sectionId);
    ghost var last := writer.sectionId + Size(WarningNodes(ws));
    assert ws[0..] == ws;
    for i := 0 to |ws|
      invariant writer.fout + Outline(WarningNodes(ws[i..]), writer.sectionId) == out
      invariant writer.sectionId + Size(WarningNodes(ws[i..])) == last
    {
      NextWarning(ws, i, writer.fout, writer.sectionId);
      WriteWarning(ws[i], writer);
    }
    assert ws[|ws|..] == [] && writer.fout + [] == writer.fout;
  }

  method WriteMessage(g: Group, writer: HtmlOutlineWriter)
    modifies writer
    ensures writer.fout == old(writer.fout) + Section(GroupNode(MESSAGES, g), old(writer.sectionId))
    ensures writer.sectionId == old(writer.sectionId) + 1 + Size(GroupNode(MESSAGES, g).children)
  {
    SectionParts(writer.fout, GroupNode(MESSAGES, g), writer.sectionId);
    writer.StartSection(Counted(g.key, g.count), "warning_text");
    WriteWarnings(g.items, writer);
    writer.EndSection();
  }

  method WriteMessages(gs: seq<Group>, writer: HtmlOutlineWriter)
    modifies writer
    ensures writer.fout == old(writer.fout) + Outline(GroupNodes(MESSAGES, gs), old(writer.sectionId))
    ensures writer.sectionId == old(writer.sectionId) + Size(GroupNodes(MESSAGES, gs))
  {
    hide Outline, Size, Section, GroupNodes, GroupNode;
    ghost var out := writer.fout + Outline(GroupNodes(MESSAGES, gs), writer.sectionId);
    ghost var last := writer.sectionId + Size(GroupNodes(MESSAGES, gs));
    assert gs[0..] == gs;
    for i := 0 to |gs|
      invariant writer.fout + Outline(GroupNodes(MESSAGES, gs[i..]), writer.sectionId) == out
      invariant writer.sectionId + Size(GroupNodes(MESSAGES, gs[i..])) == last
    {
      NextGroup(MESSAGES, gs, i, writer.fout, writer.sectionId);
      WriteMessage(gs[i], writer);
    }
    NoGroups(MESSAGES, writer.sectionId);
    assert gs[|gs|..] == [] && writer.fout + [] == writer.fout;
  }

  method WriteLocation(g: Group, writer: HtmlOutlineWriter)
    modifies writer
    ensures writer.fout == old(writer.fout) + Section(GroupNode(LOCATIONS, g), old(writer.sectionId))
    ensures writer.sectionId == old(writer.sectionId) + 1 + Size(GroupNode(LOCATIONS, g).children)
  {
    SectionParts(writer.fout, GroupNode(LOCATIONS, g), writer.sectionId);
    writer.StartSection(Counted(g.key, g.count), "location");
    var messages := GroupAndSortBySumOf(g.items, Message);
    WriteMessages(messages, writer);
    writer.EndSection();
  }

  method WriteLocations(gs: seq<Group>, writer: HtmlOutlineWriter)
    modifies writer
    ensures writer.fout == old(writer.fout) + Outline(GroupNodes(LOCATIONS, gs), old(writer.sectionId))
    ensures writer.sectionId == old(writer.sectionId) + Size(GroupNodes(LOCATIONS, gs))
  {
    hide Outline, Size, Section, GroupNodes, GroupNode;
    ghost var out := writer.fout + Outline(GroupNodes(LOCATIONS, gs), writer.sectionId);
    ghost var last := writer.sectionId + Size(GroupNodes(LOCATIONS, gs));
    assert gs[0..] == gs;
    for i := 0 to |gs|
      invariant writer.fout + Outline(GroupNodes(LOCATIONS, gs[i..]), writer.sectionId) == out
      invariant writer.sectionId + Size(GroupNodes(LOCATIONS, gs[i..])) == last
    {
      NextGroup(LOCATIONS, gs, i, writer.fout, writer.sectionId);
      WriteLocation(gs[i], writer);
    }
    NoGroups(LOCATIONS, writer.sectionId);
    assert gs[|gs|..] == [] && writer.fout + [] == writer.fout;
  }

  method WriteCategory(g: Group, writer: HtmlOutlineWriter)
    modifies writer
    ensures writer.fout == old(writer.fout) + Section(GroupNode(CATEGORIES, g), old(writer.sectionId))
    ensures writer.sectionId == old(writer.sectionId) + 1 + Size(GroupNode(CATEGORIES, g).children)
  {
    SectionParts(writer.fout, GroupNode(CATEGORIES, g), writer.sectionId);
    writer.StartSection(Counted(g.key, g.count), "category");
    var locations := GroupAndSortBySumOf(g.items, Location);
    WriteLocations(locations, writer);
    writer.EndSection();
  }

  method WriteCategories(gs: seq<Group>, writer: HtmlOutlineWriter)
    modifies writer
    ensures writer.fout == old(writer.fout) + Outline(GroupNodes(CATEGORIES, gs), old(writer.sectionId))
    ensures writer.sectionId == old(writer.sectionId) + Size(GroupNodes(CATEGORIES, gs))
  {
    hide Outline, Size, Section, GroupNodes, GroupNode;
    ghost var out := writer.fout + Outline(GroupNodes(CATEGORIES, gs), writer.sectionId);
    ghost var last := writer.sectionId + Size(GroupNodes(CATEGORIES, gs));
    assert gs[0..] == gs;
    for i := 0 to |gs|
      invariant writer.fout + Outline(GroupNodes(CATEGORIES, gs[i..]), writer.sectionId) == out
      invariant writer.sectionId + Size(GroupNodes(CATEGORIES, gs[i..])) == last
    {
      NextGroup(CATEGORIES, gs, i, writer.fout, writer.sectionId);
      WriteCategory(gs[i], writer);
    }
    NoGroups(CATEGORIES, writer.sectionId);
    assert gs[|gs|..] == [] && writer.fout + [] == writer.fout;
  }

  /** `write_html_report` */
  method WriteHtmlReport(data: seq<Warning>) returns (writer: HtmlOutlineWriter)
    ensures fresh(writer)
    ensures writer.fout == [Head] + Outline(Report(data), 0)
    ensures writer.sectionId == Size(Report(data))
  {
    writer := new HtmlOutlineWriter();
    var categories := GroupAndSortBySumOf(data, Category);
    WriteCategories(categories, writer);
  }

  // ---------------------------------------------------------------- nesting and ids

  /** The first section of a list of groups and the others. */
  lemma GroupsFront(level: nat, gs: seq<Group>)
    requires gs != []
    ensures GroupNodes(level, gs)[0] == GroupNode(level, gs[0])
    ensures GroupNodes(level, gs)[1..] == GroupNodes(level, gs[1..])
    ensures GroupNode(level, gs[0]).children == Inside(level, gs[0].items)
  {
  }

  lemma {:induction false} WarningsHeight(ws: seq<Warning>)
    ensures Height(WarningNodes(ws)) <= 1
  {
    if ws != [] { WarningsHeight(ws[1..]); }
  }

  lemma {:induction false} GroupsHeight(level: nat, gs: seq<Group>)
    ensures Height(GroupNodes(level, gs)) <= level + 2
    decreases level, |gs|
  {
    if gs != [] {
      if level == 0 {
        WarningsHeight(gs[0].items);
      } else {
        GroupsHeight(level - 1, Grouped(gs[0].items, ColumnOf(level - 1)));
      }
      GroupsHeight(level, gs[1..]);
      GroupsFront(level, gs);
      assert Height(GroupNode(level, gs[0]).children) <= level + 1;
    }
  }

  /** For any data the written sections are balanced, at most four deep, and their ids are 0, 1, 2, ... in order. */
  lemma ReportWellNested(data: seq<Warning>)
    ensures WellNested([Head] + Outline(Report(data), 0), 4)
    ensures SectionIds([Head] + Outline(Report(data), 0)) == Range(0, Size(Report(data)))
  {
    var events := Outline(Report(data), 0);
    GroupsHeight(CATEGORIES, Grouped(data, Category));
    OutlineNests(Report(data), 0, 0, 4);
    OutlineIds(Report(data), 0);
    assert ([Head] + events)[1..] == events;
  }

  // ---------------------------------------------------------------- conservation

  function Occurrences(details: seq<Detail>): int {
    if details == [] then 0
    else (if details[0].NumOccur? then details[0].n else 0) + Occurrences(details[1..])
  }

  /** The occurrences written anywhere in a forest. */
  function Written(nodes: seq<Node>): int {
    if nodes == [] then 0
    else Occurrences(nodes[0].details) + Written(nodes[0].children) + Written(nodes[1..])
  }

  /** Every count in a section's label is the sum of the occurrences written inside it. */
  predicate CountsAgree(nodes: seq<Node>) {
    nodes != [] ==>
    && (nodes[0].html.Counted? ==> nodes[0].html.count == Occurrences(nodes[0].details) + Written(nodes[0].children))
    && CountsAgree(nodes[0].children) && CountsAgree(nodes[1..])
  }

  lemma {:induction false} WarningsConserve(ws: seq<Warning>)
    ensures Written(WarningNodes(ws)) == Total(ws) && CountsAgree(WarningNodes(ws))
  {
    if ws != [] {
      WarningsConserve(ws[1..]);
      var second := [NumOccur(ws[0].num)];
      assert second[1..] == [] && Occurrences(second) == ws[0].num;
      assert WarningNode(ws[0]).details[1..] == second;
    }
  }

  ghost predicate CountsRight(gs: seq<Group>) {
    forall g :: g in gs ==> g.count == Total(g.items)
  }

  lemma GroupedCountsRight(data: seq<Warning>, col: Column)
    ensures CountsRight(Grouped(data, col)) && SumBy(Count(), Grouped(data, col)) == Total(data)
  {
    GroupedSpec(data, col);
  }

  /** The sections of groups whose counts are right write what the counts say, at every level. */
  lemma {:induction false} GroupsConserve(level: nat, gs: seq<Group>)
    requires CountsRight(gs)
    ensures Written(GroupNodes(level, gs)) == SumBy(Count(), gs) && CountsAgree(GroupNodes(level, gs))
    decreases level, |gs|
  {
    hide Grouped, Total;
    if gs != [] {
      assert gs[0] in gs;
      if level == 0 {
        WarningsConserve(gs[0].items);
      } else {
        GroupedCountsRight(gs[0].items, ColumnOf(level - 1));
        GroupsConserve(level - 1, Grouped(gs[0].items, ColumnOf(level - 1)));
      }
      GroupsConserve(level, gs[1..]);
      GroupsFront(level, gs);
    }
  }

  /** Every label's count is the sum of what is written beneath it, at every level, and the whole report accounts for
      every raw warning exactly once. */
  lemma ReportConserves(raw: seq<Warning>)
    ensures CountsAgree(Report(Compress(ConvertAll(raw))))
    ensures Written(Report(Compress(ConvertAll(raw)))) == |raw|
  {
    var data := Compress(ConvertAll(raw));
    GroupedCountsRight(data, Category);
    GroupsConserve(CATEGORIES, Grouped(data, Category));
    CompressConserves(ConvertAll(raw));
  }

  // ---------------------------------------------------------------- reading the report

  /** The open sections around a paragraph, outermost first: class and label of each. */
  type Path = seq<(string, string)>

  function Caption(html: Label): string {
    match html
    case Counted(key, _) => key
    case FileName(path) => path
  }

  function Within(path: Path, klass: string, html: Label): Path { path + [(klass, Caption(html))] }

  /** The paragraphs of a written report in order, each with the sections that are open where it stands. */
  function Paragraphs(events: seq<Event>, path: Path): seq<(Path, Detail)> {
    if events == [] then []
    else
      match events[0]
      case Head => Paragraphs(events[1..], path)
      case Start(_, klass, html) => Paragraphs(events[1..], Within(path, klass, html))
      case Write(detail) => [(path, detail)] + Paragraphs(events[1..], path)
      case End => Paragraphs(events[1..], if path == [] then [] else path[..|path| - 1])
  }

  function AllAt(path: Path, details: seq<Detail>): seq<(Path, Detail)> {
    if details == [] then [] else [(path, details[0])] + AllAt(path, details[1..])
  }

  function ForestParagraphs(nodes: seq<Node>, path: Path): seq<(Path, Detail)> {
    if nodes == [] then []
    else
      var inner := Within(path, nodes[0].klass, nodes[0].html);
      AllAt(inner, nodes[0].details) + ForestParagraphs(nodes[0].children, inner) + ForestParagraphs(nodes[1..], path)
  }

  lemma {:induction false} WritesRead(details: seq<Detail>, rest: seq<Event>, path: Path)
    ensures Paragraphs(Writes(details) + rest, path) == AllAt(path, details) + Paragraphs(rest, path)
  {
    if details == [] {
      assert Writes(details) + rest == rest;
    } else {
      assert (Writes(details) + rest)[1..] == Writes(details[1..]) + rest;
      WritesRead(details[1..], rest, path);
      Associate([(path, details[0])], AllAt(path, details[1..]), Paragraphs(rest, path));
    }
  }

  lemma EndRead(rest: seq<Event>, path: Path, klass: string, html: Label)
    ensures Paragraphs([End] + rest, Within(path, klass, html)) == Paragraphs(rest, path)
  {
    assert ([End] + rest)[1..] == rest;
    assert Within(path, klass, html)[..|path|] == path;
  }

  lemma StartRead(id: nat, klass: string, html: Label, rest: seq<Event>, path: Path)
    ensures Paragraphs([Start(id, klass, html)] + rest, path) == Paragraphs(rest, Within(path, klass, html))
  {
    assert ([Start(id, klass, html)] + rest)[1..] == rest;
  }

  lemma ForestFront(node: Node, rest: seq<Node>, path: Path)
    ensures var inner := Within(path, node.klass, node.html);
            ForestParagraphs([node] + rest, path)
              == AllAt(inner, node.details) + ForestParagraphs(node.children, inner) + ForestParagraphs(rest, path)
  {
    assert ([node] + rest)[1..] == rest;
  }

  lemma Unfold(a: seq<Event>, b: seq<Event>, c: seq<Event>, d: seq<Event>, e: seq<Event>, f: seq<Event>)
    ensures a + b + c + d + e + f == a + (b + (c + (d + (e + f))))
  {
  }

  /** The outline of a forest in front of other events, from its first section on. */
  lemma OutlineFront(nodes: seq<Node>, id: nat, rest: seq<Event>)
    requires nodes != []
    ensures var node := nodes[0];
            var behind := Outline(nodes[1..], id + 1 + Size(node.children)) + rest;
            Outline(nodes, id) + rest
              == [Start(id, node.klass, node.html)]
                 + (Writes(node.details) + (Outline(node.children, id + 1) + ([End] + behind)))
  {
    var node := nodes[0];
    Unfold([Start(id, node.klass, node.html)], Writes(node.details), Outline(node.children, id + 1), [End],
           Outline(nodes[1..], id + 1 + Size(node.children)), rest);
  }

  lemma Gather<T>(a: seq<T>, b: seq<T>, c: seq<T>, d: seq<T>)
    ensures a + (b + (c + d)) == a + b + c + d
  {
  }

  /** What an outline writes is read back as the paragraphs of its forest. */
  lemma {:induction false} OutlineRead(nodes: seq<Node>, id: nat, rest: seq<Event>, path: Path)
    ensures Paragraphs(Outline(nodes, id) + rest, path) == ForestParagraphs(nodes, path) + Paragraphs(rest, path)
  {
    hide Paragraphs, Within, Writes, AllAt, Size;
    if nodes == [] {
      assert Outline(nodes, id) + rest == rest;
    } else {
      hide Outline, ForestParagraphs;
      var node, behind := nodes[0], Outline(nodes[1..], id + 1 + Size(nodes[0].children)) + rest;
      var inner := Within(path, node.klass, node.html);
      var tail := Outline(node.children, id + 1) + ([End] + behind);
      OutlineFront(nodes, id, rest);
      StartRead(id, node.klass, node.html, Writes(node.details) + tail, path);
      WritesRead(node.details, tail, inner);
      OutlineRead(node.children, id + 1, [End] + behind, inner);
      EndRead(behind, path, node.klass, node.html);
      OutlineRead(nodes[1..], id + 1 + Size(node.children), rest, path);
      ForestFront(node, nodes[1..], path);
      assert [node] + nodes[1..] == nodes;
      Gather(AllAt(inner, node.details), ForestParagraphs(node.children, inner), ForestParagraphs(nodes[1..], path),
             Paragraphs(rest, path));
    }
  }

  /** Where a warning belongs in the report, and what is written there. */
  function PathOf(w: Warning): (r: Path)
    ensures |r| == 4
  {
    [("category", w.category), ("location", w.location), ("warning_text", w.message), ("warning", w.filename)]
  }

  function LinesOf(w: Warning): seq<(Path, Detail)> {
    [(PathOf(w), Lineno(w.lineno)), (PathOf(w), NumOccur(w.num))]
  }

  function AllLines(ws: seq<Warning>): seq<(Path, Detail)> {
    if ws == [] then [] else LinesOf(ws[0]) + AllLines(ws[1..])
  }

  lemma {:induction false} AllLinesConcat(a: seq<Warning>, b: seq<Warning>)
    ensures AllLines(a + b) == AllLines(a) + AllLines(b)
  {
    if a == [] {
      assert a + b == b;
    } else {
      assert (a + b)[1..] == a[1..] + b;
      AllLinesConcat(a[1..], b);
    }
  }

  /** The rows in the order of the report. */
  function Ordered(level: nat, items: seq<Warning>): seq<Warning>
    decreases level, 0
  {
    if level == 0 then items else OrderedGroups(level - 1, Grouped(items, ColumnOf(level - 1)))
  }

  function OrderedGroups(level: nat, gs: seq<Group>): seq<Warning>
    decreases level, 1, |gs|
  {
    if gs == [] then [] else Ordered(level, gs[0].items) + OrderedGroups(level, gs[1..])
  }

  lemma {:induction false} OrderedHolds(level: nat, items: seq<Warning>)
    ensures multiset(Ordered(level, items)) == multiset(items)
    decreases level, 0
  {
    hide Grouped, Flat;
    if level > 0 {
      GroupedHolds(items, ColumnOf(level - 1));
      OrderedGroupsHold(level - 1, Grouped(items, ColumnOf(level - 1)));
    }
  }

  lemma {:induction false} OrderedGroupsHold(level: nat, gs: seq<Group>)
    ensures multiset(OrderedGroups(level, gs)) == multiset(Flat(gs))
    decreases level, 1, |gs|
  {
    if gs != [] {
      OrderedHolds(level, gs[0].items);
      OrderedGroupsHold(level, gs[1..]);
    }
  }

  /** The rows lie under this path. */
  ghost predicate Under(path: Path, items: seq<Warning>) {
    forall w :: w in items ==> |path| <= 4 && PathOf(w)[..|path|] == path
  }

  lemma {:induction false} WarningsRead(ws: seq<Warning>, path: Path)
    requires |path| == 3 && Under(path, ws)
    ensures ForestParagraphs(WarningNodes(ws), path) == AllLines(ws)
  {
    if ws != [] {
      var w := ws[0];
      assert w in ws;
      WarningsRead(ws[1..], path);
      var node := WarningNode(w);
      assert Within(path, node.klass, node.html) == PathOf(w)[..3] + [PathOf(w)[3]] == PathOf(w);
      var second := [NumOccur(w.num)];
      assert node.details[1..] == second && second[1..] == [];
      assert AllAt(PathOf(w), second) == [(PathOf(w), NumOccur(w.num))];
      assert AllAt(PathOf(w), node.details) == LinesOf(w);
      assert ForestParagraphs(node.children, PathOf(w)) == [];
    }
  }

  /** The groups of each level lie under the path of their rows. */
  ghost predicate GroupsUnder(level: nat, gs: seq<Group>, path: Path)
    requires level <= CATEGORIES
  {
    && |path| == 2 - level
    && forall g :: g in gs ==> Under(path + [(Klass(level), g.key)], g.items)
  }

  lemma PathStep(w: Warning, level: nat)
    requires level <= CATEGORIES
    ensures PathOf(w)[..3 - level] == PathOf(w)[..2 - level] + [(Klass(level), Key(w, ColumnOf(level)))]
  {
    assert PathOf(w)[..3 - level] == PathOf(w)[..2 - level] + [PathOf(w)[2 - level]];
  }

  lemma InnerGroupsUnder(level: nat, items: seq<Warning>, path: Path)
    requires level <= CATEGORIES && |path| == 2 - level && Under(path, items)
    ensures GroupsUnder(level, Grouped(items, ColumnOf(level)), path)
  {
    hide Grouped, PathOf, Klass, Covers, InOrder, ColumnOf;
    var col := ColumnOf(level);
    GroupedSpec(items, col);
    forall g | g in Grouped(items, col) ensures Under(path + [(Klass(level), g.key)], g.items) {
      assert WarningReport.Faithful(g, items, col);
      FilterMembers(HasKey(col, g.key), items);
      forall w | w in g.items ensures PathOf(w)[..|path| + 1] == path + [(Klass(level), g.key)] {
        assert w in items && Key(w, col) == g.key;
        PathStep(w, level);
      }
    }
  }

  /** The section of a group: no paragraphs of its own, under the group's key. */
  lemma GroupFront(level: nat, g: Group, rest: seq<Node>, path: Path)
    ensures ForestParagraphs([GroupNode(level, g)] + rest, path)
         == ForestParagraphs(Inside(level, g.items), path + [(Klass(level), g.key)]) + ForestParagraphs(rest, path)
  {
    hide ForestParagraphs;
    var node := GroupNode(level, g);
    ForestFront(node, rest, path);
    var inner := path + [(Klass(level), g.key)];
    assert AllAt(inner, []) + ForestParagraphs(node.children, inner) == ForestParagraphs(node.children, inner);
  }

  lemma {:induction false} GroupsRead(level: nat, gs: seq<Group>, path: Path)
    requires level <= CATEGORIES && GroupsUnder(level, gs, path)
    ensures ForestParagraphs(GroupNodes(level, gs), path) == AllLines(OrderedGroups(level, gs))
    decreases level, |gs|
  {
    if gs == [] {
    } else {
      hide ForestParagraphs, PathOf, LinesOf, Grouped, Klass, GroupNode, AllLines;
      var g := gs[0];
      assert g in gs;
      var inner := path + [(Klass(level), g.key)];
      GroupsRead(level, gs[1..], path);
      if level == 0 {
        WarningsRead(g.items, inner);
      } else {
        InnerGroupsUnder(level - 1, g.items, inner);
        GroupsRead(level - 1, Grouped(g.items, ColumnOf(level - 1)), inner);
      }
      assert ForestParagraphs(Inside(level, g.items), inner) == AllLines(Ordered(level, g.items));
      GroupFront(level, g, GroupNodes(level, gs[1..]), path);
      AllLinesConcat(Ordered(level, g.items), OrderedGroups(level, gs[1..]));
    }
  }

  /** The written report shows every row of the data once: under the labels of its category, its location and its
      message and in a section named after its file stand its line number and its count, and nothing else is shown. */
  lemma ReportShows(data: seq<Warning>) returns (rows: seq<Warning>)
    ensures multiset(rows) == multiset(data)
    ensures Paragraphs([Head] + Outline(Report(data), 0), []) == AllLines(rows)
  {
    var gs := Grouped(data, Category);
    rows := OrderedGroups(CATEGORIES, gs);
    GroupedHolds(data, Category);
    OrderedGroupsHold(CATEGORIES, gs);
    InnerGroupsUnder(CATEGORIES, data, []);
    GroupsRead(CATEGORIES, gs, []);
    var events := Outline(Report(data), 0);
    assert ([Head] + events)[1..] == events && events + [] == events;
    OutlineRead(Report(data), 0, [], []);
    assert Paragraphs([], []) == [];
  }

  // ---------------------------------------------------------------- order of the sections

  /** Of two labels with counts the first has the larger one, or the same and the smaller key. */
  ghost predicate Precedes(a: Label, b: Label) {
    a.Counted? && b.Counted? ==>
      a.count > b.count || (a.count == b.count && Ordering.StringLe(a.key, b.key) && a.key != b.key)
  }

  ghost predicate SectionsInOrder(nodes: seq<Node>) {
    nodes != [] ==>
      && (forall j :: 0 < j < |nodes| ==> Precedes(nodes[0].html, nodes[j].html))
      && SectionsInOrder(nodes[0].children) && SectionsInOrder(nodes[1..])
  }

  lemma {:induction false} GroupLabels(level: nat, gs: seq<Group>)
    ensures |GroupNodes(level, gs)| == |gs|
    ensures forall i :: 0 <= i < |gs| ==> GroupNodes(level, gs)[i].html == Counted(gs[i].key, gs[i].count)
    decreases |gs|
  {
    if gs != [] {
      GroupLabels(level, gs[1..]);
      GroupsFront(level, gs);
    }
  }

  lemma {:induction false} WarningsInOrder(ws: seq<Warning>)
    ensures SectionsInOrder(WarningNodes(ws))
  {
    if ws != [] { WarningsInOrder(ws[1..]); }
  }

  lemma {:induction false} GroupsInOrder(level: nat, gs: seq<Group>)
    requires forall i: nat, j: nat :: i < j < |gs| ==> InOrder(gs[i], gs[j])
    ensures SectionsInOrder(GroupNodes(level, gs))
    decreases level, |gs|
  {
    if gs != [] {
      GroupLabels(level, gs);
      GroupsFront(level, gs);
      GroupsInOrder(level, gs[1..]);
      if level == 0 {
        WarningsInOrder(gs[0].items);
      } else {
        GroupedSpec(gs[0].items, ColumnOf(level - 1));
        GroupsInOrder(level - 1, Grouped(gs[0].items, ColumnOf(level - 1)));
      }
    }
  }

  /** At every level the sections come by descending counts, equal counts by ascending keys, without a repeated key. */
  lemma ReportInOrder(data: seq<Warning>)
    ensures SectionsInOrder(Report(data))
  {
    GroupedSpec(data, Category);
    GroupsInOrder(CATEGORIES, Grouped(data, Category));
  }
}
