/** The already-parsed XML tree the project reader walks (the part of
    System.Xml.Linq it uses): element names, attributes in document order,
    child elements, text values, the pre-order `Descendants` walk and the
    first-child lookup `Element`. */
module Xml {
  import opened Wrappers

  /** One XML element. `value` is the element's text (`XElement.Value`). */
  datatype Node = Node(name: string, attrs: seq<(string, string)>, children: seq<Node>, value: string)

  /** `n.Descendants()`: every element below `n`, in document (pre-order) order. */
  function Descendants(n: Node): (r: seq<Node>)
    ensures forall c :: c in n.children ==> c in r
    decreases n, 1
  {
    DescendantsOf(n.children)
  }

  /** The pre-order walk of a run of sibling elements and everything below them. */
  function DescendantsOf(cs: seq<Node>): (r: seq<Node>)
    ensures forall c :: c in cs ==> c in r
    ensures |r| >= |cs|
    ensures |cs| > 0 ==> r[0] == cs[0]
    decreases cs, 0
  {
    if |cs| == 0 then [] else [cs[0]] + Descendants(cs[0]) + DescendantsOf(cs[1..])
  }

  /** The elements of `ns` named `name`, in order (`Descendants(name)` once the walk is done). */
  function Named(ns: seq<Node>, name: string): (r: seq<Node>)
    ensures forall x :: x in r <==> x in ns && x.name == name
    ensures |r| <= |ns|
  {
    if |ns| == 0 then []
    else if ns[0].name == name then [ns[0]] + Named(ns[1..], name)
    else Named(ns[1..], name)
  }

  /** Filtering keeps document order: the named elements of two runs are
      those of the first run followed by those of the second. */
  lemma {:induction false} NamedAppend(a: seq<Node>, b: seq<Node>, name: string)
    ensures Named(a + b, name) == Named(a, name) + Named(b, name)
  {
    if |a| > 0 {
      assert (a + b)[1..] == a[1..] + b;
      NamedAppend(a[1..], b, name);
    } else {
      assert a + b == b;
    }
  }

  /** `x` lies somewhere below `n`: it is a child of `n` or below one. */
  predicate Below(x: Node, n: Node)
    decreases n
  {
    exists i :: 0 <= i < |n.children| && (n.children[i] == x || Below(x, n.children[i]))
  }

  /** The walk below `n` holds exactly the elements that lie below `n`. */
  lemma {:induction false} DescendantsMembers(n: Node, x: Node)
    ensures x in Descendants(n) <==> Below(x, n)
    decreases n, 1
  {
    DescendantsOfMembers(n.children, x);
  }

  /** The walk of a run of siblings holds exactly the siblings and what lies below them. */
  lemma {:induction false} DescendantsOfMembers(cs: seq<Node>, x: Node)
    ensures x in DescendantsOf(cs) <==> exists i :: 0 <= i < |cs| && (cs[i] == x || Below(x, cs[i]))
    decreases cs, 0
  {
    if |cs| > 0 {
      var tail := cs[1..];
      DescendantsMembers(cs[0], x);
      DescendantsOfMembers(tail, x);
      if exists i :: 0 <= i < |tail| && (tail[i] == x || Below(x, tail[i])) {
        var i :| 0 <= i < |tail| && (tail[i] == x || Below(x, tail[i]));
        assert cs[i + 1] == tail[i];
      }
      if exists i :: 0 <= i < |cs| && (cs[i] == x || Below(x, cs[i])) {
        var i :| 0 <= i < |cs| && (cs[i] == x || Below(x, cs[i]));
        if i > 0 { assert tail[i - 1] == cs[i]; }
      }
    }
  }

  /** A single element is walked as itself followed by everything below it:
      together with `DescendantsOfAppend` this fixes the pre-order walk. */
  lemma {:induction false} DescendantsOfOne(c: Node)
    ensures DescendantsOf([c]) == [c] + Descendants(c)
  {
    assert [c][1..] == [];
  }

  /** The pre-order walk of two runs of siblings is the walk of the first
      followed by the walk of the second. */
  lemma {:induction false} DescendantsOfAppend(a: seq<Node>, b: seq<Node>)
    ensures DescendantsOf(a + b) == DescendantsOf(a) + DescendantsOf(b)
  {
    if |a| > 0 {
      assert (a + b)[1..] == a[1..] + b;
      DescendantsOfAppend(a[1..], b);
    } else {
      assert a + b == b;
    }
  }

  /** `n.Element(name)`: the first child element named `name`, if any. */
  function Element(n: Node, name: string): Option<Node> {
    FirstNamed(n.children, name)
  }

  function FirstNamed(cs: seq<Node>, name: string): Option<Node> {
    if |cs| == 0 then None
    else if cs[0].name == name then Some(cs[0])
    else FirstNamed(cs[1..], name)
  }

  /** The lookup finds nothing exactly when no element is named `name`, and
      otherwise the element at the first position carrying that name. */
  lemma {:induction false} FirstNamedIsFirst(cs: seq<Node>, name: string)
    ensures FirstNamed(cs, name).None? <==> forall i :: 0 <= i < |cs| ==> cs[i].name != name
    ensures FirstNamed(cs, name).Some? ==>
              exists k :: 0 <= k < |cs| && cs[k] == FirstNamed(cs, name).value && cs[k].name == name &&
                          forall j :: 0 <= j < k ==> cs[j].name != name
  {
    if |cs| > 0 && cs[0].name != name {
      var tail := cs[1..];
      FirstNamedIsFirst(tail, name);
      if FirstNamed(tail, name).Some? {
        var k :| 0 <= k < |tail| && tail[k] == FirstNamed(tail, name).value && tail[k].name == name &&
                 forall j :: 0 <= j < k ==> tail[j].name != name;
        assert cs[k + 1] == tail[k];
        forall j | 0 <= j < k + 1 ensures cs[j].name != name {
          if j > 0 { assert cs[j] == tail[j - 1]; }
        }
      } else {
        forall i | 0 <= i < |cs| ensures cs[i].name != name {
          if i > 0 { assert cs[i] == tail[i - 1]; }
        }
      }
    }
  }

  /** `Element` finds the first child named `name`, and nothing when no child has that name. */
  lemma {:induction false} ElementIsFirstChild(n: Node, name: string)
    ensures Element(n, name).None? <==> forall i :: 0 <= i < |n.children| ==> n.children[i].name != name
    ensures Element(n, name).Some? ==>
              exists k :: 0 <= k < |n.children| && n.children[k] == Element(n, name).value && n.children[k].name == name &&
                          forall j :: 0 <= j < k ==> n.children[j].name != name
  {
    FirstNamedIsFirst(n.children, name);
  }

  /** The value of the last attribute named `name`, or "" when there is none:
      what a loop over `Attributes()` that overwrites a string initialised to
      `string.Empty` leaves behind. */
  function AttrValue(attrs: seq<(string, string)>, name: string): (v: string)
    ensures (forall i :: 0 <= i < |attrs| ==> attrs[i].0 != name) ==> v == ""
    ensures (exists i :: 0 <= i < |attrs| && attrs[i].0 == name) ==>
              exists i :: 0 <= i < |attrs| && attrs[i] == (name, v) &&
                          forall j :: i < j < |attrs| ==> attrs[j].0 != name
  {
    if |attrs| == 0 then ""
    else if attrs[|attrs| - 1].0 == name then attrs[|attrs| - 1].1
    else AttrValue(attrs[..|attrs| - 1], name)
  }
}
