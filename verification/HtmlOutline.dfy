/** The outline writer and the shape of what it writes. */
module HtmlOutline {
  import opened Prelude

  /** The html of a section's label. */
  datatype Label = Counted(key: string, count: int) | FileName(path: string)

  /** A paragraph inside a section. */
  datatype Detail = Lineno(n: int) | NumOccur(n: int)

  /** What goes to the file: the page head, section starts with their ids, paragraphs, section ends. */
  datatype Event = Head | Start(id: nat, klass: string, html: Label) | Write(detail: Detail) | End

  class HtmlOutlineWriter {
    var fout: seq<Event>
    var sectionId: nat

    constructor ()
      ensures fout == [Head] && sectionId == 0
    {
      fout := [Head];
      sectionId := 0;
    }

    method StartSection(html: Label, klass: string)
      modifies this
      ensures fout == old(fout) + [Start(old(sectionId), klass, html)] && sectionId == old(sectionId) + 1
    {
      fout := fout + [Start(sectionId, klass, html)];
      sectionId := sectionId + 1;
    }

    method EndSection()
      modifies this`fout
      ensures fout == old(fout) + [End]
    {
      fout := fout + [End];
    }

    method WriteDetail(detail: Detail)
      modifies this`fout
      ensures fout == old(fout) + [Write(detail)]
    {
      fout := fout + [Write(detail)];
    }
  }

  /** A section with its paragraphs and the sections inside it. */
  datatype Node = Node(klass: string, html: Label, details: seq<Detail>, children: seq<Node>)

  function Writes(details: seq<Detail>): seq<Event> {
    if details == [] then [] else [Write(details[0])] + Writes(details[1..])
  }

  function Size(nodes: seq<Node>): nat {
    if nodes == [] then 0 else 1 + Size(nodes[0].children) + Size(nodes[1..])
  }

  function Height(nodes: seq<Node>): nat {
    if nodes == [] then 0
    else
      var h, r := 1 + Height(nodes[0].children), Height(nodes[1..]);
      if h > r then h else r
  }

  /** The events that write the sections of a forest, ids counted from `id`. */
  function Outline(nodes: seq<Node>, id: nat): seq<Event> {
    if nodes == [] then []
    else Section(nodes[0], id) + Outline(nodes[1..], id + 1 + Size(nodes[0].children))
  }

  function Section(node: Node, id: nat): seq<Event> {
    [Start(id, node.klass, node.html)] + Writes(node.details) + Outline(node.children, id + 1) + [End]
  }

  // ---------------------------------------------------------------- nesting and ids

  /** Reads the events from depth `depth`; None when a section ends that is not open or more than `max` are open. */
  function Scan(events: seq<Event>, depth: nat, max: nat): Option<nat> {
    if events == [] then Some(depth)
    else
      match events[0]
      case Start(_, _, _) => if depth + 1 > max then None else Scan(events[1..], depth + 1, max)
      case End => if depth == 0 then None else Scan(events[1..], depth - 1, max)
      case _ => Scan(events[1..], depth, max)
  }

  /** Balanced, and never more than `max` sections deep. */
  predicate WellNested(events: seq<Event>, max: nat) {
    Scan(events, 0, max) == Some(0)
  }

  function SectionIds(events: seq<Event>): seq<nat> {
    if events == [] then []
    else (if events[0].Start? then [events[0].id] else []) + SectionIds(events[1..])
  }

  function Range(from: nat, n: nat): seq<nat> {
    seq(n, i requires 0 <= i < n => from + i)
  }

  lemma RangeConcat(from: nat, a: nat, b: nat)
    ensures Range(from, a) + Range(from + a, b) == Range(from, a + b)
  {
  }

  lemma {:induction false} ScanConcat(a: seq<Event>, b: seq<Event>, depth: nat, max: nat)
    ensures Scan(a + b, depth, max) ==
            match Scan(a, depth, max)
            case None => None
            case Some(d) => Scan(b, d, max)
    decreases |a|
  {
    if a == [] {
      assert a + b == b;
    } else {
      assert (a + b)[1..] == a[1..] + b;
      match a[0]
      case Start(_, _, _) => ScanConcat(a[1..], b, depth + 1, max);
      case End => if depth > 0 { ScanConcat(a[1..], b, depth - 1, max); }
      case _ => ScanConcat(a[1..], b, depth, max);
    }
  }

  lemma IdsCons(e: Event, rest: seq<Event>)
    ensures SectionIds([e] + rest) == (if e.Start? then [e.id] else []) + SectionIds(rest)
  {
    assert ([e] + rest)[1..] == rest;
  }

  lemma {:induction false} IdsConcat(a: seq<Event>, b: seq<Event>)
    ensures SectionIds(a + b) == SectionIds(a) + SectionIds(b)
  {
    if a == [] {
      assert a + b == b;
    } else {
      assert a + b == [a[0]] + (a[1..] + b) && a == [a[0]] + a[1..];
      IdsCons(a[0], a[1..] + b);
      IdsConcat(a[1..], b);
    }
  }

  lemma {:induction false} WritesAreFlat(details: seq<Detail>, depth: nat, max: nat)
    ensures Scan(Writes(details), depth, max) == Some(depth)
    ensures SectionIds(Writes(details)) == []
  {
    if details != [] {
      WritesAreFlat(details[1..], depth, max);
    }
  }

  /** An outline leaves the depth as it was and stays within its height. */
  lemma {:induction false} OutlineNests(nodes: seq<Node>, id: nat, depth: nat, max: nat)
    requires depth + Height(nodes) <= max
    ensures Scan(Outline(nodes, id), depth, max) == Some(depth)
    decreases nodes, 1
  {
    if nodes != [] {
      var rest := id + 1 + Size(nodes[0].children);
      SectionNests(nodes[0], id, depth, max);
      OutlineNests(nodes[1..], rest, depth, max);
      ScanConcat(Section(nodes[0], id), Outline(nodes[1..], rest), depth, max);
    }
  }

  lemma {:induction false} SectionNests(node: Node, id: nat, depth: nat, max: nat)
    requires depth + 1 + Height(node.children) <= max
    ensures Scan(Section(node, id), depth, max) == Some(depth)
    decreases node, 0
  {
    var start := [Start(id, node.klass, node.html)];
    var inner := Outline(node.children, id + 1);
    OutlineNests(node.children, id + 1, depth + 1, max);
    WritesAreFlat(node.details, depth + 1, max);
    assert start[1..] == [] && [End][1..] == [];
    assert Scan(start, depth, max) == Some(depth + 1);
    assert Scan([End], depth + 1, max) == Some(depth);
    ScanConcat(start, Writes(node.details), depth, max);
    ScanConcat(start + Writes(node.details), inner, depth, max);
    ScanConcat(start + Writes(node.details) + inner, [End], depth, max);
  }

  lemma IdsJoin(a: seq<Event>, b: seq<Event>, id: nat, m: nat, n: nat)
    requires SectionIds(a) == Range(id, m) && SectionIds(b) == Range(id + m, n)
    ensures SectionIds(a + b) == Range(id, m + n)
  {
    IdsConcat(a, b);
    RangeConcat(id, m, n);
  }

  /** The ids of an outline are consecutive from its first one, without repeats. */
  lemma {:induction false} OutlineIds(nodes: seq<Node>, id: nat)
    ensures SectionIds(Outline(nodes, id)) == Range(id, Size(nodes))
    decreases nodes, 1
  {
    if nodes != [] {
      var inner := Size(nodes[0].children);
      var first, rest := Section(nodes[0], id), Outline(nodes[1..], id + 1 + inner);
      SectionIdsOf(nodes[0], id);
      OutlineIds(nodes[1..], id + 1 + inner);
      IdsJoin(first, rest, id, 1 + inner, Size(nodes[1..]));
    }
  }

  lemma IdsOfStart(id: nat, start: Event, texts: seq<Event>)
    requires start.Start? && start.id == id && SectionIds(texts) == []
    ensures SectionIds([start] + texts) == Range(id, 1)
  {
    IdsCons(start, texts);
    assert Range(id, 1) == [id] == [id] + [];
  }

  lemma IdsOfParts(id: nat, start: Event, texts: seq<Event>, inner: seq<Event>, n: nat)
    requires start.Start? && start.id == id
    requires SectionIds(texts) == [] && SectionIds(inner) == Range(id + 1, n)
    ensures SectionIds([start] + texts + inner + [End]) == Range(id, 1 + n)
  {
    IdsOfStart(id, start, texts);
    IdsJoin([start] + texts, inner, id, 1, n);
    assert SectionIds([End]) == [] by {
      assert [End][1..] == [];
    }
    IdsConcat([start] + texts + inner, [End]);
  }

  lemma {:induction false} SectionIdsOf(node: Node, id: nat)
    ensures SectionIds(Section(node, id)) == Range(id, 1 + Size(node.children))
    decreases node, 0
  {
    OutlineIds(node.children, id + 1);
    WritesAreFlat(node.details, 0, 0);
    IdsOfParts(id, Start(id, node.klass, node.html), Writes(node.details), Outline(node.children, id + 1),
               Size(node.children));
  }
}
