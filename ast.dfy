/**
 * The syntax tree as the code patrol sees it, and the order in which a walk
 * of it hands string literals and constant names to a patrol.
 *
 * The parser is outside the model: a tree is an input. Only three kinds of
 * node matter: string literals, constant references (an optional scope, a
 * name), and everything else, which is only descended into.
 */
module Ast {
  import opened Wrappers
  import opened Text

  datatype Node =
    | StrNode(value: string, line: nat)
    | ConstNode(scope: Option<Node>, name: string, line: nat)
    | Other(children: seq<Node>)

  /** What a walk asks the patrol to check: a string literal's text, or a
      constant's full name. */
  datatype Probe =
    | TextProbe(text: string, line: nat)
    | NameProbe(name: string, line: nat)

  /** `traverse_const`: the rebuilt `Scope::Name` and the names checked on the
      way, innermost first. A scope that is not a constant becomes `?` and is
      neither checked nor descended into. */
  function ConstChain(n: Node): (r: (string, seq<Probe>))
    ensures n.ConstNode? ==> |r.1| >= 1 && r.1[|r.1| - 1] == NameProbe(r.0, n.line)
    ensures !n.ConstNode? ==> r == ("?", [])
    ensures forall k :: 0 <= k < |r.1| ==> r.1[k].NameProbe?
  {
    match n
    case ConstNode(scope, name, line) =>
      (match scope
       case None => (name, [NameProbe(name, line)])
       case Some(s) =>
         var inner := ConstChain(s);
         var full := inner.0 + "::" + name;
         (full, inner.1 + [NameProbe(full, line)]))
    case _ => ("?", [])
  }

  /** `ConstChain` of a constant node unfolded once: the scope's chain, then
      the node's own full name. */
  lemma ChainStep(n: Node)
    requires n.ConstNode?
    ensures ConstChain(n).1[..|ConstChain(n).1| - 1] == (if n.scope.Some? then ConstChain(n.scope.value).1 else [])
    ensures ConstChain(n).0 == (if n.scope.Some? then ConstChain(n.scope.value).0 + "::" + n.name else n.name)
  {
    if n.scope.Some? {
      var inner := ConstChain(n.scope.value);
      assert (inner.1 + [NameProbe(inner.0 + "::" + n.name, n.line)])[..|inner.1|] == inner.1;
    }
  }

  /** `traverse_ast`: a string literal is checked with its own line, a
      constant through `ConstChain`, any other node through its children in
      order. */
  function Probes(n: Node): seq<Probe> {
    match n
    case StrNode(value, line) => [TextProbe(value, line)]
    case ConstNode(_, _, _) => ConstChain(n).1
    case Other(cs) => Concat(seq(|cs|, i requires 0 <= i < |cs| => Probes(cs[i])))
  }

  // ---------------------------------------------------------------------------
  // Constant chains

  /** `A::B::C` joined from its parts. */
  function JoinNames(names: seq<string>): string
    requires names != []
  {
    if |names| == 1 then names[0] else JoinNames(names[..|names| - 1]) + "::" + names[|names| - 1]
  }

  /** The tree of the constant reference `names[0]::...::names[n-1]`, every
      level on one line. */
  function ChainNode(names: seq<string>, line: nat): (n: Node)
    requires names != []
    ensures n.ConstNode?
  {
    if |names| == 1 then ConstNode(None, names[0], line)
    else ConstNode(Some(ChainNode(names[..|names| - 1], line)), names[|names| - 1], line)
  }

  /** Every prefix of a constant chain is checked, innermost first:
      `Faker::Movies` checks `Faker`, then `Faker::Movies`. */
  lemma {:induction false} ChainChecksEveryPrefix(names: seq<string>, line: nat)
    requires names != []
    ensures ConstChain(ChainNode(names, line)).0 == JoinNames(names)
    ensures Probes(ChainNode(names, line)) ==
      seq(|names|, k requires 0 <= k < |names| => NameProbe(JoinNames(names[..k + 1]), line))
    decreases |names|
  {
    var want := seq(|names|, k requires 0 <= k < |names| => NameProbe(JoinNames(names[..k + 1]), line));
    if |names| == 1 {
      assert names[..1] == names;
    } else {
      var front := names[..|names| - 1];
      ChainChecksEveryPrefix(front, line);
      var got := Probes(ChainNode(names, line));
      assert got == Probes(ChainNode(front, line)) + [NameProbe(JoinNames(names), line)];
      assert |got| == |want|;
      forall k | 0 <= k < |names| ensures got[k] == want[k] {
        if k < |names| - 1 {
          assert front[..k + 1] == names[..k + 1];
        } else {
          assert names[..k + 1] == names;
        }
      }
    }
  }

  /** A constant under a scope that is not a constant (`expr::Name`): only
      `?::Name` is checked, and nothing inside the scope is visited. */
  lemma UnknownScope(scope: Node, name: string, line: nat)
    requires !scope.ConstNode?
    ensures Probes(ConstNode(Some(scope), name, line)) == [NameProbe("?::" + name, line)]
  {
    assert ConstChain(scope) == ("?", []);
    assert "?" + "::" + name == "?::" + name;
    assert [] + [NameProbe("?::" + name, line)] == [NameProbe("?::" + name, line)];
  }

  /** The probes of a node with children are those of its children, in
      order. */
  lemma {:induction false} ChildrenInOrder(cs: seq<Node>, c: Node)
    ensures Probes(Other(cs + [c])) == Probes(Other(cs)) + Probes(c)
  {
    var ps := seq(|cs| + 1, i requires 0 <= i < |cs| + 1 => Probes((cs + [c])[i]));
    assert ps[..|cs|] == seq(|cs|, i requires 0 <= i < |cs| => Probes(cs[i]));
  }
}
