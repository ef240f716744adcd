/** Arena trees and the document value (canonical JSON) they denote. */
module Trees {
  import opened Options
  import opened Model
  import T = TextDiff

  datatype Node = Node(shell: Shell, children: seq<nat>, parent: Option<nat>)

  /** Node 0 is the root; parents precede children, as the parser lays them out. */
  type Tree = seq<Node>

  /** A canonical document value.  It stands for its snapshot id as well. */
  datatype Doc = Element(shell: Shell, children: seq<Doc>)

  // ----- legal shells ------------------------------------------------------

  const I64_MAX := 0x7FFF_FFFF_FFFF_FFFF

  predicate AttrsOk(a: Attrs) {
    forall k :: k in a ==> a[k] != Nested && (a[k].Int? ==> a[k].i <= I64_MAX)
  }

  predicate RunAttrOk(k: string, v: Value) {
    if k in ["b", "i", "u", "s", "code"] then v.Bool? else k == "link" && v.Str?
  }

  predicate RunAttrsOk(a: Attrs) {
    a != map[] && forall k :: k in a ==> RunAttrOk(k, a[k])
  }

  predicate RunsOk(rs: seq<Run>, len: nat) {
    && Canonical(rs)
    && (forall i :: 0 <= i < |rs| ==> rs[i].end <= len && RunAttrsOk(rs[i].attrs))
  }

  /** Sentences are trimmed, single-spaced and free of other white space than line breaks. */
  predicate Normalized(x: string) {
    && (x != "" ==> x[0] != ' ' && x[|x| - 1] != ' ')
    && (forall i :: 0 <= i < |x| - 1 ==> !(x[i] == ' ' && x[i + 1] == ' '))
    && (forall i :: 0 <= i < |x| ==> x[i] == ' ' || x[i] == '\n' || !T.IsWhitespace(x[i]))
  }

  predicate ShellOk(s: Shell) {
    && AttrsOk(s.attrs)
    && (IsLeaf(s.kind) <==> s.text.Some?)
    && (s.text.Some? ==> RunsOk(s.text.value.f, |s.text.value.x|))
    && (s.kind == Sen ==> Normalized(s.text.value.x))
  }

  /** What the parser accepts. */
  predicate DocOk(d: Doc) {
    ShellOk(d.shell) && (IsLeaf(d.shell.kind) ==> d.children == []) && forall c :: c in d.children ==> DocOk(c)
  }

  // ----- legal trees -------------------------------------------------------

  /** Children come after their parent, point back to it and are listed in order. */
  predicate ChildrenOk(t: Tree, p: nat)
    requires p < |t|
  {
    && (forall j :: 0 <= j < |t[p].children| ==> p < t[p].children[j] < |t| && t[t[p].children[j]].parent == Some(p))
    && (forall j, k :: 0 <= j < k < |t[p].children| ==> t[p].children[j] < t[p].children[k])
  }

  predicate ParentOk(t: Tree, i: nat)
    requires i < |t|
  {
    t[i].parent.Some? && t[i].parent.value < i && i in t[t[i].parent.value].children
  }

  predicate NodeOk(n: Node) {
    ShellOk(n.shell) && (IsLeaf(n.shell.kind) ==> n.children == [])
  }

  predicate WellFormed(t: Tree) {
    && |t| > 0 && t[0].parent == None && t[0].shell.kind == Kind.Doc
    && (forall i :: 0 < i < |t| ==> ParentOk(t, i))
    && (forall p :: 0 <= p < |t| ==> ChildrenOk(t, p))
    && (forall i :: 0 <= i < |t| ==> NodeOk(t[i]))
  }

  /** The document under node i. */
  function DocAt(t: Tree, i: nat): Doc
    requires WellFormed(t) && i < |t|
    decreases |t| - i
  {
    assert ChildrenOk(t, i);
    Element(t[i].shell, seq(|t[i].children|, j requires 0 <= j < |t[i].children| => DocAt(t, t[i].children[j])))
  }

  lemma {:induction false} DocAtOk(t: Tree, i: nat)
    requires WellFormed(t) && i < |t|
    ensures DocOk(DocAt(t, i))
    decreases |t| - i
  {
    assert ChildrenOk(t, i);
    var d := DocAt(t, i);
    forall c | c in d.children ensures DocOk(c) {
      var j :| 0 <= j < |d.children| && c == d.children[j];
      DocAtOk(t, t[i].children[j]);
    }
  }

  function ToDoc(t: Tree): Doc
    requires WellFormed(t)
  {
    DocAt(t, 0)
  }

}
