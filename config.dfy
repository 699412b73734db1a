/** The per-run configuration document and the resolution of one parameter
    path against it, as `GlobalStats::writeParams` walks it with TinyXML. */
module Config {
  import opened Wrappers

  /** An XML element: its tag, its attributes and its child elements in
      document order. */
  datatype Elem = Elem(name: string, attrs: map<string, string>, children: seq<Elem>)

  /** A loaded document: its top-level elements. */
  datatype Document = Document(children: seq<Elem>)

  /** A parameter path: element 0 is the attribute name, the elements after
      it name the enclosing elements from the innermost to the outermost. */
  type ParamPath = seq<string>

  /** Index of the first element of `es` named `name`, or -1. */
  function FirstNamed(es: seq<Elem>, name: string): (i: int)
    ensures -1 <= i < |es|
  {
    if |es| == 0 then -1
    else if es[0].name == name then 0
    else
      var k := FirstNamed(es[1..], name);
      if k < 0 then -1 else k + 1
  }

  /** The index found names `name`, and no earlier element (no element at
      all, for -1) does. */
  lemma {:induction false} FirstNamedIsFirst(es: seq<Elem>, name: string)
    ensures FirstNamed(es, name) >= 0 ==> es[FirstNamed(es, name)].name == name
    ensures forall j :: 0 <= j < |es| && (FirstNamed(es, name) < 0 || j < FirstNamed(es, name)) ==> es[j].name != name
  {
    if |es| > 0 && es[0].name != name {
      FirstNamedIsFirst(es[1..], name);
      forall j | 1 <= j < |es|
        ensures es[j] == es[1..][j - 1]
      {
      }
    }
  }

  /** `FirstChildElement(name)`: the first child element with that tag, or null. */
  function FirstChildElement(es: seq<Elem>, name: string): Option<Elem>
  {
    var i := FirstNamed(es, name);
    if i < 0 then None else Some(es[i])
  }

  /** The child found has that tag; null means no child has it. */
  lemma FirstChildElementFinds(es: seq<Elem>, name: string)
    ensures FirstChildElement(es, name).Some? ==>
              FirstChildElement(es, name).value in es && FirstChildElement(es, name).value.name == name
    ensures FirstChildElement(es, name).None? ==> forall e :: e in es ==> e.name != name
  {
    FirstNamedIsFirst(es, name);
  }

  /** One lookup of the walk. A null cursor (`None`) looks the name up among
      the document's top-level elements, otherwise among the cursor's children. */
  function Step(doc: Document, cursor: Option<Elem>, name: string): Option<Elem>
  {
    match cursor
    case None => FirstChildElement(doc.children, name)
    case Some(e) => FirstChildElement(e.children, name)
  }

  /** The cursor after performing the lookups `names` in order, starting null. */
  function Walk(doc: Document, names: seq<string>): Option<Elem>
  {
    if |names| == 0 then None
    else Step(doc, Walk(doc, names[..|names| - 1]), names[|names| - 1])
  }

  /** One more lookup moves the cursor by one step. */
  lemma WalkSnoc(doc: Document, names: seq<string>, i: nat)
    requires i < |names|
    ensures Walk(doc, names[..i + 1]) == Step(doc, Walk(doc, names[..i]), names[i])
  {
    assert names[..i + 1][..i] == names[..i];
  }

  /** The names the walk looks up for path `p`: p[|p|-1], p[|p|-2], ..., p[1]. */
  function LookupOrder(p: ParamPath): (ns: seq<string>)
    requires |p| >= 1
    ensures |ns| == |p| - 1
    ensures forall i :: 0 <= i < |ns| ==> ns[i] == p[|p| - 1 - i]
  {
    seq(|p| - 1, i requires 0 <= i < |p| - 1 => p[|p| - 1 - i])
  }

  /** The attribute value a path resolves to, or `None` where the source
      faults: an empty path underflows the `size() - 1` loop bound, a null
      final element is dereferenced, and a missing attribute streams a null
      `char*`. */
  function ResolvePath(doc: Document, p: ParamPath): Option<string>
  {
    if |p| == 0 then None
    else
      match Walk(doc, LookupOrder(p))
      case None => None
      case Some(e) => if p[0] in e.attrs then Some(e.attrs[p[0]]) else None
  }

  /** A path of one element performs no lookup, so its final element is null. */
  lemma ResolveNeedsTwoElements(doc: Document, p: ParamPath)
    requires |p| < 2
    ensures ResolvePath(doc, p) == None
  {
  }

  /** The plain reading of a path: descend from the document through the
      enclosing elements, outermost first, and fail at the first missing one. */
  function Descend(doc: Document, outerToInner: seq<string>): Option<Elem>
    requires |outerToInner| > 0
  {
    match FirstChildElement(doc.children, outerToInner[0])
    case None => None
    case Some(e) => DescendFrom(e, outerToInner[1..])
  }

  function DescendFrom(e: Elem, names: seq<string>): Option<Elem>
  {
    if |names| == 0 then Some(e)
    else
      match FirstChildElement(e.children, names[0])
      case None => None
      case Some(c) => DescendFrom(c, names[1..])
  }

  /** Once the walk has reached `x`, the remaining lookups follow the plain
      descent from `x` whenever that descent succeeds. */
  lemma {:induction false} WalkContinues(doc: Document, names: seq<string>, k: nat, x: Elem)
    requires 0 < k <= |names|
    requires Walk(doc, names[..k]) == Some(x) && DescendFrom(x, names[k..]).Some?
    ensures Walk(doc, names) == DescendFrom(x, names[k..])
    decreases |names| - k
  {
    if k < |names| {
      assert names[..k + 1][..k] == names[..k];
      var c := FirstChildElement(x.children, names[k]).value;
      assert Walk(doc, names[..k + 1]) == Some(c);
      assert names[k..][1..] == names[k + 1..];
      WalkContinues(doc, names, k + 1, c);
    } else {
      assert names[..k] == names;
    }
  }

  /** Whenever every enclosing element exists, the source's backwards walk
      reaches exactly the element the plain outer-to-inner descent reaches. */
  lemma WalkAgreesWithDescend(doc: Document, names: seq<string>, e: Elem)
    requires |names| > 0 && Descend(doc, names) == Some(e)
    ensures Walk(doc, names) == Some(e)
  {
    var first := FirstChildElement(doc.children, names[0]).value;
    assert names[..1][..0] == [];
    assert Walk(doc, names[..1]) == Some(first);
    WalkContinues(doc, names, 1, first);
  }

  /** So a path whose elements all exist resolves to the attribute of the
      element named by p[1] inside p[2] inside ... inside p[|p|-1]. */
  lemma ResolveCanonical(doc: Document, p: ParamPath, e: Elem)
    requires |p| >= 2 && Descend(doc, LookupOrder(p)) == Some(e) && p[0] in e.attrs
    ensures ResolvePath(doc, p) == Some(e.attrs[p[0]])
  {
    WalkAgreesWithDescend(doc, LookupOrder(p), e);
  }

  /** A lookup that finds nothing leaves the cursor null, so the next lookup
      starts again from the document: here the path names a `missing` element
      that does not exist, yet it resolves, to the attribute of the top-level
      element `x`. */
  lemma ResolveRestartsAfterMissing()
    ensures var doc := Document([Elem("x", map["a" := "1"], [])]);
            var p := ["a", "x", "missing"];
            Descend(doc, LookupOrder(p)) == None && ResolvePath(doc, p) == Some("1")
  {
    var x := Elem("x", map["a" := "1"], []);
    var doc := Document([x]);
    var p := ["a", "x", "missing"];
    var ns := LookupOrder(p);
    assert ns == ["missing", "x"];
    assert FirstNamed(doc.children, "missing") == -1 by {
      assert FirstNamed(doc.children[1..], "missing") == -1;
    }
    assert FirstNamed(doc.children, "x") == 0;
    assert ns[..1] == ["missing"] && ns[..1][..0] == [];
    assert Walk(doc, ns[..1]) == None;
    assert Walk(doc, ns) == Some(x);
  }

  /** Every path of the list, in list order, with the cursor reset to null
      before each one; `None` as soon as one path faults. */
  function ResolveAll(doc: Document, ps: seq<ParamPath>): Option<seq<string>>
  {
    if |ps| == 0 then Some([])
    else
      match ResolveAll(doc, ps[..|ps| - 1])
      case None => None
      case Some(vs) =>
        match ResolvePath(doc, ps[|ps| - 1])
        case None => None
        case Some(v) => Some(vs + [v])
  }

  /** The resolved list holds one value per path, each one the value of that
      path alone; the list fails exactly when one of its paths fails. */
  lemma {:induction false} ResolveAllPerPath(doc: Document, ps: seq<ParamPath>)
    ensures ResolveAll(doc, ps).Some? <==> forall i :: 0 <= i < |ps| ==> ResolvePath(doc, ps[i]).Some?
    ensures ResolveAll(doc, ps).Some? ==>
              |ResolveAll(doc, ps).value| == |ps| &&
              forall i :: 0 <= i < |ps| ==> ResolveAll(doc, ps).value[i] == ResolvePath(doc, ps[i]).value
  {
    if |ps| > 0 {
      var pre := ps[..|ps| - 1];
      ResolveAllPerPath(doc, pre);
      assert forall i :: 0 <= i < |pre| ==> pre[i] == ps[i];
    }
  }

  /** Resolving one more path appends its value. */
  lemma ResolveAllSnoc(doc: Document, ps: seq<ParamPath>, idx: nat, vs: seq<string>, v: string)
    requires idx < |ps| && ResolveAll(doc, ps[..idx]) == Some(vs) && ResolvePath(doc, ps[idx]) == Some(v)
    ensures ResolveAll(doc, ps[..idx + 1]) == Some(vs + [v])
  {
    assert ps[..idx + 1][..idx] == ps[..idx];
  }

  /** One faulting path makes the whole list fault. */
  lemma ResolveAllStops(doc: Document, ps: seq<ParamPath>, i: nat)
    requires i < |ps| && ResolvePath(doc, ps[i]).None?
    ensures ResolveAll(doc, ps).None?
  {
    ResolveAllPerPath(doc, ps);
  }
}
