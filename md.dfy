/**
 * pkg/md: link extraction from parsed Markdown documents.
 *
 * The goldmark parser is a parameter that turns a document's bytes into a
 * tree; of that tree only three kinds of node matter here: links (with their
 * destination and children), text leaves, and every other node (with its
 * children).
 */
module Md {

  type Bytes = seq<bv8>

  /** A node of the parsed document tree. */
  datatype Node =
    | LinkNode(Destination: string, Children: seq<Node>)
    | TextNode(Value: string)
    | OtherNode(Children: seq<Node>)

  /** md.Link: the file it was found in, its text, its destination, and whether it is relative. */
  datatype Link = Link(File: string, Text: string, URL: string, IsRelative: bool)

  /** The Markdown parser: a document's bytes to its tree. */
  type Parser = Bytes -> Node

  /** Decides from a destination whether a link is relative. */
  type Classifier = string -> bool

  // ---------------------------------------------------------------- LinkToString

  /** LinkToString: "[Text](URL) in file File". */
  function LinkToString(link: Link): (s: string)
    ensures |s| == |link.Text| + |link.URL| + |link.File| + 13
    ensures s[..1] == "[" && s[|s| - |link.File|..] == link.File
  {
    "[" + link.Text + "](" + link.URL + ") in file " + link.File
  }

  /**
   * When the text holds no ']' and the destination no ')', the string names
   * the link's text, destination and file unambiguously.
   */
  lemma LinkToStringInjective(a: Link, b: Link)
    requires ']' !in a.Text && ']' !in b.Text && ')' !in a.URL && ')' !in b.URL
    requires LinkToString(a) == LinkToString(b)
    ensures a.Text == b.Text && a.URL == b.URL && a.File == b.File
  {
    LinkToStringParts(a);
    LinkToStringParts(b);
    SplitAtFirst("[" + a.Text, "[" + b.Text, ']', Tail(a), Tail(b));
    assert a.Text == ("[" + a.Text)[1..];
    assert b.Text == ("[" + b.Text)[1..];
    TailInjective(a.URL, b.URL, a.File, b.File);
  }

  /** What follows the text's closing bracket. */
  function Tail(link: Link): string
  {
    "(" + link.URL + ") in file " + link.File
  }

  /** The string cut at the bracket that closes the text. */
  lemma LinkToStringParts(link: Link)
    ensures LinkToString(link) == ("[" + link.Text) + [']'] + Tail(link)
  {
  }

  /** The part after "](" determines the destination and the file. */
  lemma TailInjective(u1: string, u2: string, f1: string, f2: string)
    requires ')' !in u1 && ')' !in u2
    requires "(" + u1 + ") in file " + f1 == "(" + u2 + ") in file " + f2
    ensures u1 == u2 && f1 == f2
  {
    TailParts(u1, f1);
    TailParts(u2, f2);
    SplitAtFirst("(" + u1, "(" + u2, ')', " in file " + f1, " in file " + f2);
    assert u1 == ("(" + u1)[1..];
    assert u2 == ("(" + u2)[1..];
    assert f1 == (" in file " + f1)[9..];
    assert f2 == (" in file " + f2)[9..];
  }

  lemma TailParts(u: string, f: string)
    ensures "(" + u + ") in file " + f == ("(" + u) + [')'] + (" in file " + f)
  {
  }

  /** A string cut at the first occurrence of a character determines both parts. */
  lemma SplitAtFirst(x: string, y: string, c: char, r1: string, r2: string)
    requires c !in x && c !in y
    requires x + [c] + r1 == y + [c] + r2
    ensures x == y && r1 == r2
  {
    FindAfter(x, c, r1);
    FindAfter(y, c, r2);
    assert x == (x + [c] + r1)[..|x|];
    assert y == (y + [c] + r2)[..|y|];
    assert r1 == (x + [c] + r1)[|x| + 1..];
    assert r2 == (y + [c] + r2)[|y| + 1..];
  }

  /** The index of the first `c` in `s`, or |s| when there is none. */
  function Find(s: string, c: char): (i: nat)
    ensures i <= |s|
  {
    if s == [] || s[0] == c then 0 else 1 + Find(s[1..], c)
  }

  lemma {:induction false} FindAfter(x: string, c: char, rest: string)
    requires c !in x
    ensures Find(x + [c] + rest, c) == |x|
  {
    if x != [] {
      FindAfter(x[1..], c, rest);
      assert (x + [c] + rest)[1..] == x[1..] + [c] + rest;
    }
  }

  // ---------------------------------------------------------------- extractText

  /** What a node contributes to its parent link's text: its value if it is a text leaf. */
  function TextOf(n: Node): string
  {
    if n.TextNode? then n.Value else ""
  }

  /** The values of the text nodes among `children`, concatenated in order. */
  function DirectText(children: seq<Node>): string
  {
    if children == [] then ""
    else DirectText(children[..|children| - 1]) + TextOf(children[|children| - 1])
  }

  /** extractText: steps through the link's children, appending the value of each text child. */
  method ExtractText(link: Node) returns (text: string)
    requires link.LinkNode?
    ensures text == DirectText(link.Children)
  {
    var children := link.Children;
    text := "";
    var i := 0;
    while i < |children|
      invariant 0 <= i <= |children|
      invariant text == DirectText(children[..i])
    {
      assert children[..i + 1][..i] == children[..i];
      if children[i].TextNode? {
        text := text + children[i].Value;
      }
      i := i + 1;
    }
    assert children[..|children|] == children;
  }

  /** The text of a sequence of children is the text of its parts, joined. */
  lemma {:induction false} DirectTextAppend(a: seq<Node>, b: seq<Node>)
    ensures DirectText(a + b) == DirectText(a) + DirectText(b)
  {
    if b == [] {
      assert a + b == a;
    } else {
      var init := b[..|b| - 1];
      DirectTextAppend(a, init);
      assert (a + b)[..|a + b| - 1] == a + init;
      assert (a + b)[|a + b| - 1] == b[|b| - 1];
    }
  }

  /** A link with no text children has empty text. */
  lemma {:induction false} DirectTextWithoutTextNodes(children: seq<Node>)
    requires forall k :: 0 <= k < |children| ==> !children[k].TextNode?
    ensures DirectText(children) == ""
  {
    if children != [] {
      DirectTextWithoutTextNodes(children[..|children| - 1]);
    }
  }

  /** A child that is not a text leaf adds nothing, whatever text lies beneath it. */
  lemma DirectTextSkipsNonText(a: seq<Node>, n: Node, b: seq<Node>)
    requires !n.TextNode?
    ensures DirectText(a + [n] + b) == DirectText(a + b)
  {
    DirectTextAppend(a + [n], b);
    DirectTextAppend(a, b);
    assert (a + [n])[..|a + [n]| - 1] == a;
  }

  // ---------------------------------------------------------------- the walk

  /** The record emitted for a link node found in `file`. */
  function Record(file: string, n: Node, classify: Classifier): Link
    requires n.LinkNode?
  {
    Link(file, DirectText(n.Children), n.Destination, classify(n.Destination))
  }

  /** The records a walk of `n` emits, in the order the walk emits them. */
  function NodeLinks(file: string, n: Node, classify: Classifier): seq<Link>
    decreases n, 1
  {
    match n
    case LinkNode(_, children) => [Record(file, n, classify)] + ChildrenLinks(file, children, classify)
    case TextNode(_) => []
    case OtherNode(children) => ChildrenLinks(file, children, classify)
  }

  /** The records walks of the sibling sequence `children` emit, left to right. */
  function ChildrenLinks(file: string, children: seq<Node>, classify: Classifier): seq<Link>
    decreases children, 0
  {
    if children == [] then []
    else ChildrenLinks(file, children[..|children| - 1], classify) + NodeLinks(file, children[|children| - 1], classify)
  }

  lemma ChildrenLinksSnoc(file: string, children: seq<Node>, i: int, classify: Classifier)
    requires 0 <= i < |children|
    ensures ChildrenLinks(file, children[..i + 1], classify) == ChildrenLinks(file, children[..i], classify) + NodeLinks(file, children[i], classify)
  {
    assert children[..i + 1][..i] == children[..i];
  }

  /**
   * ast.Walk with ExtractLinks' callback: on entering a link node, append its
   * record; always continue into the children, first to last.
   */
  method WalkLinks(file: string, n: Node, classify: Classifier, links: seq<Link>) returns (out: seq<Link>)
    ensures out == links + NodeLinks(file, n, classify)
    decreases n, 1
  {
    out := links;
    if n.LinkNode? {
      var text := ExtractText(n);
      out := out + [Link(file, text, n.Destination, classify(n.Destination))];
    }
    if !n.TextNode? {
      out := WalkChildren(file, n.Children, classify, out);
    }
    NodeLinksUnfold(file, n, classify);
  }

  /** The walk's loop over a node's children, first to last. */
  method WalkChildren(file: string, children: seq<Node>, classify: Classifier, links: seq<Link>) returns (out: seq<Link>)
    ensures out == links + ChildrenLinks(file, children, classify)
    decreases children, 0
  {
    out := links;
    var i := 0;
    while i < |children|
      invariant 0 <= i <= |children|
      invariant out == links + ChildrenLinks(file, children[..i], classify)
    {
      ChildrenLinksSnoc(file, children, i, classify);
      out := WalkLinks(file, children[i], classify, out);
      i := i + 1;
    }
    assert children[..|children|] == children;
  }

  /** A node's records: its own, if it is a link, then those of its children. */
  lemma NodeLinksUnfold(file: string, n: Node, classify: Classifier)
    ensures NodeLinks(file, n, classify)
      == (if n.LinkNode? then [Record(file, n, classify)] else [])
         + (if n.TextNode? then [] else ChildrenLinks(file, n.Children, classify))
  {
  }

  // ---------------------------------------------------------------- pre-order reference

  /** Every node of the tree, each before its descendants, siblings left to right. */
  function PreOrder(n: Node): seq<Node>
    decreases n, 1
  {
    match n
    case TextNode(_) => [n]
    case LinkNode(_, children) => [n] + PreOrderAll(children)
    case OtherNode(children) => [n] + PreOrderAll(children)
  }

  function PreOrderAll(children: seq<Node>): seq<Node>
    decreases children, 0
  {
    if children == [] then []
    else PreOrderAll(children[..|children| - 1]) + PreOrder(children[|children| - 1])
  }

  /** One record for each link node of `nodes`, in the order of `nodes`. */
  function LinkRecords(file: string, nodes: seq<Node>, classify: Classifier): seq<Link>
  {
    if nodes == [] then []
    else
      var last := nodes[|nodes| - 1];
      LinkRecords(file, nodes[..|nodes| - 1], classify) + (if last.LinkNode? then [Record(file, last, classify)] else [])
  }

  /** The number of link nodes in `nodes`. */
  function LinkNodeCount(nodes: seq<Node>): nat
  {
    if nodes == [] then 0
    else LinkNodeCount(nodes[..|nodes| - 1]) + (if nodes[|nodes| - 1].LinkNode? then 1 else 0)
  }

  lemma {:induction false} LinkRecordsAppend(file: string, a: seq<Node>, b: seq<Node>, classify: Classifier)
    ensures LinkRecords(file, a + b, classify) == LinkRecords(file, a, classify) + LinkRecords(file, b, classify)
  {
    if b == [] {
      assert a + b == a;
    } else {
      var init := b[..|b| - 1];
      LinkRecordsAppend(file, a, init, classify);
      assert (a + b)[..|a + b| - 1] == a + init;
      assert (a + b)[|a + b| - 1] == b[|b| - 1];
    }
  }

  /** LinkRecords emits exactly one record per link node, each naming `file`. */
  lemma {:induction false} LinkRecordsShape(file: string, nodes: seq<Node>, classify: Classifier)
    ensures |LinkRecords(file, nodes, classify)| == LinkNodeCount(nodes)
    ensures forall l :: l in LinkRecords(file, nodes, classify) ==> l.File == file
  {
    if nodes != [] {
      LinkRecordsShape(file, nodes[..|nodes| - 1], classify);
    }
  }

  /**
   * The walk emits one record per link node of the tree, in pre-order,
   * including links nested inside other links and other nodes.
   */
  lemma {:induction false} NodeLinksPreOrder(file: string, n: Node, classify: Classifier)
    ensures NodeLinks(file, n, classify) == LinkRecords(file, PreOrder(n), classify)
    decreases n, 1
  {
    match n
    case TextNode(_) =>
      assert PreOrder(n) == [n];
      assert [n][..0] == [];
    case LinkNode(_, children) =>
      ChildrenLinksPreOrder(file, children, classify);
      LinkRecordsAppend(file, [n], PreOrderAll(children), classify);
      assert [n][..0] == [];
    case OtherNode(children) =>
      ChildrenLinksPreOrder(file, children, classify);
      LinkRecordsAppend(file, [n], PreOrderAll(children), classify);
      assert [n][..0] == [];
  }

  lemma {:induction false} ChildrenLinksPreOrder(file: string, children: seq<Node>, classify: Classifier)
    ensures ChildrenLinks(file, children, classify) == LinkRecords(file, PreOrderAll(children), classify)
    decreases children, 0
  {
    if children != [] {
      var init, last := children[..|children| - 1], children[|children| - 1];
      ChildrenLinksPreOrder(file, init, classify);
      NodeLinksPreOrder(file, last, classify);
      LinkRecordsAppend(file, PreOrderAll(init), PreOrder(last), classify);
    }
  }

  /** The walk of a document emits as many records as it has link nodes, all naming `file`. */
  lemma NodeLinksShape(file: string, n: Node, classify: Classifier)
    ensures |NodeLinks(file, n, classify)| == LinkNodeCount(PreOrder(n))
    ensures forall l :: l in NodeLinks(file, n, classify) ==> l.File == file
  {
    NodeLinksPreOrder(file, n, classify);
    LinkRecordsShape(file, PreOrder(n), classify);
  }

  // ---------------------------------------------------------------- per-file views

  /** The records of `links` found in file `f`, in their order in `links`. */
  function FromFile(links: seq<Link>, f: string): seq<Link>
  {
    if links == [] then []
    else (if links[0].File == f then [links[0]] else []) + FromFile(links[1..], f)
  }

  /** The records of `links` found in any file but `f`, in order. */
  function NotFromFile(links: seq<Link>, f: string): seq<Link>
  {
    if links == [] then []
    else (if links[0].File != f then [links[0]] else []) + NotFromFile(links[1..], f)
  }

  lemma {:induction false} FromFileAppend(a: seq<Link>, b: seq<Link>, f: string)
    ensures FromFile(a + b, f) == FromFile(a, f) + FromFile(b, f)
  {
    if a != [] {
      FromFileAppend(a[1..], b, f);
      assert (a + b)[1..] == a[1..] + b;
    } else {
      assert a + b == b;
    }
  }

  lemma {:induction false} FromFileAll(links: seq<Link>, f: string)
    requires forall l :: l in links ==> l.File == f
    ensures FromFile(links, f) == links
  {
    if links != [] {
      FromFileAll(links[1..], f);
    }
  }

  lemma {:induction false} FromFileNone(links: seq<Link>, f: string)
    requires forall l :: l in links ==> l.File != f
    ensures FromFile(links, f) == []
  {
    if links != [] {
      FromFileNone(links[1..], f);
    }
  }

  /** Every record is either from `f` or not. */
  lemma {:induction false} FromFilePartition(links: seq<Link>, f: string)
    ensures |links| == |FromFile(links, f)| + |NotFromFile(links, f)|
    ensures forall l :: l in NotFromFile(links, f) ==> l in links && l.File != f
    ensures forall g :: g != f ==> FromFile(NotFromFile(links, f), g) == FromFile(links, g)
  {
    if links != [] {
      FromFilePartition(links[1..], f);
      forall g | g != f
        ensures FromFile(NotFromFile(links, f), g) == FromFile(links, g)
      {
        var head := if links[0].File != f then [links[0]] else [];
        FromFileAppend(head, NotFromFile(links[1..], f), g);
      }
    }
  }

  /** A file of the map, chosen once and for all. */
  ghost function SomeFile(files: map<string, Bytes>): (f: string)
    requires files != map[]
    ensures f in files
  {
    var f :| f in files; f
  }

  /** The number of link nodes in all parsed documents together. */
  ghost function TotalLinkNodes(files: map<string, Bytes>, parse: Parser): nat
    decreases |files|
  {
    if files == map[] then 0
    else
      var f := SomeFile(files);
      assert |files - {f}| < |files| by {
        assert files.Keys - {f} < files.Keys;
      }
      LinkNodeCount(PreOrder(parse(files[f]))) + TotalLinkNodes(files - {f}, parse)
  }

  /**
   * A list holding, for every file, exactly that file's walk records, has as
   * many records as there are link nodes in all documents together.
   */
  lemma {:induction false} RecordCount(links: seq<Link>, files: map<string, Bytes>, parse: Parser, classify: Classifier)
    requires forall l :: l in links ==> l.File in files
    requires forall f :: f in files ==> FromFile(links, f) == NodeLinks(f, parse(files[f]), classify)
    ensures |links| == TotalLinkNodes(files, parse)
    decreases |files|
  {
    assert |links| > 0 ==> links[0] in links;
    if files != map[] {
      var f := SomeFile(files);
      var rest := files - {f};
      assert |rest| < |files| by {
        assert files.Keys - {f} < files.Keys;
      }
      FromFilePartition(links, f);
      NodeLinksShape(f, parse(files[f]), classify);
      RecordCount(NotFromFile(links, f), rest, parse, classify);
    }
  }

  /**
   * Appending the walk of `file`'s document to records that name other files
   * leaves every other file's records alone and gives `file` exactly its walk.
   */
  lemma ExtendedFileViews(before: seq<Link>, file: string, doc: Node, classify: Classifier)
    requires forall l :: l in before ==> l.File != file
    ensures FromFile(before + NodeLinks(file, doc, classify), file) == NodeLinks(file, doc, classify)
    ensures forall f :: f != file ==> FromFile(before + NodeLinks(file, doc, classify), f) == FromFile(before, f)
    ensures forall l :: l in NodeLinks(file, doc, classify) ==> l.File == file
  {
    var found := NodeLinks(file, doc, classify);
    NodeLinksShape(file, doc, classify);
    FromFileAppend(before, found, file);
    FromFileNone(before, file);
    FromFileAll(found, file);
    forall f | f != file
      ensures FromFile(before + found, f) == FromFile(before, f)
    {
      FromFileAppend(before, found, f);
      FromFileNone(found, f);
    }
  }

  /**
   * ExtractLinks: parses every file, in whatever order the map yields them,
   * and walks each document appending one record per link node. The records
   * of each file are that file's walk, in document order; there are no others.
   */
  method ExtractLinks(files: map<string, Bytes>, parse: Parser, classify: Classifier) returns (links: seq<Link>)
    ensures forall l :: l in links ==> l.File in files
    ensures forall f :: f in files ==> FromFile(links, f) == NodeLinks(f, parse(files[f]), classify)
    ensures |links| == TotalLinkNodes(files, parse)
  {
    links := [];
    var remaining := files.Keys;
    while remaining != {}
      invariant remaining <= files.Keys
      invariant forall l :: l in links ==> l.File in files && l.File !in remaining
      invariant forall f :: f in files && f !in remaining ==> FromFile(links, f) == NodeLinks(f, parse(files[f]), classify)
      decreases remaining
    {
      var file :| file in remaining;
      var doc := parse(files[file]);
      ghost var before := links;
      links := WalkLinks(file, doc, classify, links);
      ExtendedFileViews(before, file, doc, classify);
      remaining := remaining - {file};
    }
    RecordCount(links, files, parse, classify);
  }

  /** The walk of TwoLinkTree emits both links, in document order, each with its own text. */
  lemma TwoLinkDocument(classify: Classifier)
    ensures NodeLinks("test1.md", TwoLinkTree(), classify)
      == [Link("test1.md", "test link", "https://example.com", classify("https://example.com")),
          Link("test1.md", "link", "https://golang.org", classify("https://golang.org"))]
  {
    var f := "test1.md";
    var heading := OtherNode([TextNode("Title")]);
    assert ChildrenLinks(f, heading.Children, classify) == [] by {
      assert heading.Children[..0] == [];
    }
    TwoLinkParagraph(classify);
    var tree := TwoLinkTree();
    assert tree.Children[..1] == [heading];
    assert [heading][..0] == [];
  }

  /** The paragraph's children yield the two links and nothing for the text around them. */
  lemma TwoLinkParagraph(classify: Classifier)
    ensures ChildrenLinks("test1.md", Paragraph(), classify)
      == [Link("test1.md", "test link", "https://example.com", classify("https://example.com")),
          Link("test1.md", "link", "https://golang.org", classify("https://golang.org"))]
  {
    var f := "test1.md";
    var words := Paragraph();
    var first, second := words[1], words[4];
    SingleTextLink(f, "https://example.com", "test link", classify);
    SingleTextLink(f, "https://golang.org", "link", classify);
    var r1, r2 := Record(f, first, classify), Record(f, second, classify);
    assert ChildrenLinks(f, words[..1], classify) == [] by {
      assert words[..1][..0] == [];
    }
    assert words[..2][..1] == words[..1];
    assert words[..3][..2] == words[..2];
    assert words[..4][..3] == words[..3];
    assert words[..5][..4] == words[..4];
    assert words[..6][..5] == words[..5];
    assert words[..6] == words;
    assert ChildrenLinks(f, words[..2], classify) == [r1];
    assert ChildrenLinks(f, words[..3], classify) == [r1];
    assert ChildrenLinks(f, words[..4], classify) == [r1];
    assert ChildrenLinks(f, words[..5], classify) == [r1, r2];
  }

  /** A link whose only child is a text leaf yields one record, with that text. */
  lemma SingleTextLink(file: string, url: string, text: string, classify: Classifier)
    ensures NodeLinks(file, LinkNode(url, [TextNode(text)]), classify) == [Link(file, text, url, classify(url))]
  {
    var children := [TextNode(text)];
    assert children[..0] == [];
    assert DirectText(children) == text;
    assert ChildrenLinks(file, children, classify) == [];
  }

  /** "This is a [test link](https://example.com).\nAnother [link](https://golang.org) is here." */
  function Paragraph(): seq<Node>
  {
    [TextNode("This is a "),
     LinkNode("https://example.com", [TextNode("test link")]),
     TextNode("."),
     TextNode("Another "),
     LinkNode("https://golang.org", [TextNode("link")]),
     TextNode(" is here.")]
  }

  /** The tree of a document with the heading "Title" followed by Paragraph. */
  function TwoLinkTree(): Node
  {
    OtherNode([OtherNode([TextNode("Title")]), OtherNode(Paragraph())])
  }
}
