/** An abstract HTML document tree, standing in for the `select` crate's `Document` and `Node`.
    A node's position is the path of child indices that leads to it from the document root,
    so "the parent" of a node is the path with its last index dropped. */
module Html {
  import opened Wrappers
  import opened Seqs

  datatype Node =
    | Element(name: string, attrs: map<string, string>, children: seq<Node>)
    | Text(content: string)

  type Path = seq<nat>

  /** A node together with its position in the document. */
  datatype Located = Located(path: Path, node: Node)

  /** `node.attr(key)`: text nodes carry no attributes. */
  function Attr(n: Node, key: string): (r: Option<string>)
    ensures r.Some? <==> n.Element? && key in n.attrs
    ensures r.Some? ==> r.value == n.attrs[key]
  {
    match n
    case Element(_, attrs, _) => if key in attrs then Some(attrs[key]) else None
    case Text(_) => None
  }

  /** `node.attr("class").unwrap_or("")`. */
  function ClassOrEmpty(n: Node): string
  {
    match Attr(n, "class")
    case Some(c) => c
    case None => ""
  }

  /** The `Name(tag)` predicate of `find`. */
  predicate IsElement(n: Node, tag: string)
  {
    n.Element? && n.name == tag
  }

  /** `node.text()`: the text of every text node below `n`, in document order. */
  function TextOf(n: Node): string
    decreases n
  {
    match n
    case Text(s) => s
    case Element(_, _, cs) => ChildrenText(cs)
  }

  function ChildrenText(cs: seq<Node>): string
    decreases cs
  {
    if cs == [] then "" else TextOf(cs[0]) + ChildrenText(cs[1..])
  }

  /** Text is collected in child order, as `text()` does: the text of a run of children
      followed by another run is the first run's text followed by the second's. */
  lemma {:induction false} ChildrenTextAppend(a: seq<Node>, b: seq<Node>)
    ensures ChildrenText(a + b) == ChildrenText(a) + ChildrenText(b)
  {
    if a == [] {
      assert a + b == b;
    } else {
      assert (a + b)[0] == a[0] && (a + b)[1..] == a[1..] + b;
      ChildrenTextAppend(a[1..], b);
    }
  }

  /** The node reached from `root` by following `p`, if `p` leads anywhere. */
  function NodeAt(root: Node, p: Path): Option<Node>
    decreases |p|
  {
    if p == [] then Some(root)
    else match root
      case Text(_) => None
      case Element(_, _, cs) => if p[0] < |cs| then NodeAt(cs[p[0]], p[1..]) else None
  }

  /** `l` really is the node found at its path in `root`. */
  predicate InDoc(root: Node, l: Located)
  {
    NodeAt(root, l.path) == Some(l.node)
  }

  /** `node.find(..)` before filtering: every proper descendant of `n`, in pre-order, each
      paired with its position; `base` is the position of `n` itself. */
  function Preorder(n: Node, base: Path): seq<Located>
    decreases n
  {
    match n
    case Text(_) => []
    case Element(_, _, cs) => ChildrenPreorder(cs, base, 0)
  }

  function ChildrenPreorder(cs: seq<Node>, base: Path, i: nat): seq<Located>
    decreases cs, |cs| - i
  {
    if i >= |cs| then []
    else [Located(base + [i], cs[i])] + Preorder(cs[i], base + [i]) + ChildrenPreorder(cs, base, i + 1)
  }

  /** The proper descendants of a located node. */
  function Descendants(l: Located): seq<Located>
  {
    Preorder(l.node, l.path)
  }

  /** `document.find(..)` before filtering: every node of the document in document order,
      the root first. */
  function DocumentNodes(root: Node): (r: seq<Located>)
    ensures |r| >= 1 && r[0] == Located([], root)
    ensures forall k :: 1 <= k < |r| ==> |r[k].path| >= 1
  {
    PreorderInDoc(root, root, []);
    [Located([], root)] + Preorder(root, [])
  }

  /** Following `p` and then `q` is following `p + q`. */
  lemma {:induction false} NodeAtAppend(root: Node, p: Path, q: Path)
    ensures NodeAt(root, p + q) == match NodeAt(root, p) case Some(n) => NodeAt(n, q) case None => None
    decreases |p|
  {
    if p == [] {
      assert p + q == q;
    } else if root.Element? && p[0] < |root.children| {
      assert (p + q)[0] == p[0] && (p + q)[1..] == p[1..] + q;
      NodeAtAppend(root.children[p[0]], p[1..], q);
    }
  }

  /** Every ancestor of a node that exists exists too. */
  lemma NodeAtPrefix(root: Node, p: Path, k: nat)
    requires NodeAt(root, p).Some?
    requires k <= |p|
    ensures NodeAt(root, p[..k]).Some?
  {
    assert p == p[..k] + p[k..];
    NodeAtAppend(root, p[..k], p[k..]);
  }

  /** Every enumerated descendant of the node at `base` sits, in `root`, at the position
      recorded with it, and that position lies strictly below `base`. */
  lemma {:induction false} PreorderInDoc(root: Node, n: Node, base: Path)
    requires NodeAt(root, base) == Some(n)
    ensures forall l :: l in Preorder(n, base) ==>
      InDoc(root, l) && |l.path| > |base| && l.path[..|base|] == base
    decreases n, 1
  {
    if n.Element? {
      ChildrenInDoc(root, n.children, base, 0, n);
    }
  }

  lemma {:induction false} ChildrenInDoc(root: Node, cs: seq<Node>, base: Path, i: nat, n: Node)
    requires NodeAt(root, base) == Some(n) && n.Element? && n.children == cs
    ensures forall l :: l in ChildrenPreorder(cs, base, i) ==>
      InDoc(root, l) && |l.path| > |base| && l.path[..|base|] == base
    decreases cs, |cs| - i
  {
    if i < |cs| {
      NodeAtAppend(root, base, [i]);
      assert NodeAt(root, base + [i]) == Some(cs[i]);
      PreorderInDoc(root, cs[i], base + [i]);
      ChildrenInDoc(root, cs, base, i + 1, n);
      forall l | l in Preorder(cs[i], base + [i])
        ensures |l.path| > |base| && l.path[..|base|] == base
      {
        assert l.path[..|base|] == l.path[..|base + [i]|][..|base|];
      }
    }
  }

  /** Every node that `document.find` enumerates is found at its recorded position. */
  lemma DocumentNodesInDoc(root: Node)
    ensures forall l :: l in DocumentNodes(root) ==> InDoc(root, l)
  {
    PreorderInDoc(root, root, []);
  }

  /** `haystack.starts_with(needle)`. */
  predicate IsPrefix(needle: string, haystack: string)
  {
    |needle| <= |haystack| && haystack[..|needle|] == needle
  }

  /** Rust's `str::contains` for a string pattern. */
  predicate Contains(s: string, sub: string)
    decreases |s|
  {
    IsPrefix(sub, s) || (s != [] && Contains(s[1..], sub))
  }

  /** `sub` occurs in `s` starting at offset `i`. */
  predicate OccursAt(s: string, sub: string, i: nat)
  {
    i + |sub| <= |s| && s[i..i + |sub|] == sub
  }

  /** `Contains` holds exactly when `sub` occurs at some offset of `s`. */
  lemma {:induction false} ContainsAt(s: string, sub: string)
    ensures Contains(s, sub) <==> exists i: nat :: OccursAt(s, sub, i)
    decreases |s|
  {
    if IsPrefix(sub, s) {
      assert OccursAt(s, sub, 0);
    }
    if s != [] {
      ContainsAt(s[1..], sub);
      if Contains(s[1..], sub) {
        var i: nat :| OccursAt(s[1..], sub, i);
        assert OccursAt(s, sub, i + 1);
      }
      if exists i: nat :: OccursAt(s, sub, i) {
        var i: nat :| OccursAt(s, sub, i);
        if i > 0 {
          assert OccursAt(s[1..], sub, i - 1);
        } else {
          assert IsPrefix(sub, s);
        }
      }
    } else if exists i: nat :: OccursAt(s, sub, i) {
      var i: nat :| OccursAt(s, sub, i);
      assert sub == [];
    }
  }

  /** The `char::is_whitespace` set: the Unicode White_Space property. */
  predicate IsWhitespace(c: char)
  {
    ('\U{9}' <= c <= '\U{D}') || c == ' ' || c == '\U{85}' || c == '\U{A0}' || c == '\U{1680}' ||
    ('\U{2000}' <= c <= '\U{200A}') || c == '\U{2028}' || c == '\U{2029}' || c == '\U{202F}' ||
    c == '\U{205F}' || c == '\U{3000}'
  }

  /** `str::trim_start`: `s` without its leading whitespace. */
  function TrimStart(s: string): (r: string)
    ensures |r| <= |s| && r == s[|s| - |r|..]
    ensures forall i :: 0 <= i < |s| - |r| ==> IsWhitespace(s[i])
    ensures r != [] ==> !IsWhitespace(r[0])
    decreases |s|
  {
    if s != [] && IsWhitespace(s[0]) then TrimStart(s[1..]) else s
  }

  /** `str::trim_end`: `s` without its trailing whitespace. */
  function TrimEnd(s: string): (r: string)
    ensures |r| <= |s| && r == s[..|r|]
    ensures forall i :: |r| <= i < |s| ==> IsWhitespace(s[i])
    ensures r != [] ==> !IsWhitespace(r[|r| - 1])
    decreases |s|
  {
    if s != [] && IsWhitespace(s[|s| - 1]) then TrimEnd(s[..|s| - 1]) else s
  }

  /** `str::trim`. */
  function Trim(s: string): string
  {
    TrimEnd(TrimStart(s))
  }

  /** Trimming a trimmed string changes nothing. */
  lemma TrimIdempotent(s: string)
    ensures Trim(Trim(s)) == Trim(s)
  {
  }
}
