/** `LocalVarsNode` and `AdditionalBindingsNode`: helper nodes that only print
    a signature when a query plan is rendered, and that a visitor meets as
    "other" nodes. The signature is built by appending to a string builder in
    a loop; `Signature` is what the loop builds, and `ParseSignature` reads
    the parts back. */
module PrintNodes {
  import opened Util
  import opened Rdf

  const Separator: string := ", "
  const LocalVarsHead: string := "LocalVars ("
  const BindingsHead: string := "Additional Bindings ("

  /** The head, the parts joined with ", ", and ")". */
  function Signature(head: string, parts: seq<string>): string
  {
    head + Join(parts, Separator) + ")"
  }

  /** `getName() + "=" + getValue().stringValue()`. */
  function BindingText(b: Binding): string
  {
    b.name + "=" + StringValue(b.value)
  }

  function BindingTexts(bs: seq<Binding>): (r: seq<string>)
    ensures |r| == |bs| && forall i :: 0 <= i < |bs| ==> r[i] == BindingText(bs[i])
  {
    seq(|bs|, i requires 0 <= i < |bs| => BindingText(bs[i]))
  }

  /** One step of the printing loop: the first i + 1 parts joined are the
      first i joined, a separator unless i is 0, and part i. */
  lemma JoinStep(parts: seq<string>, i: int)
    requires 0 <= i < |parts|
    ensures Join(parts[..i + 1], Separator)
            == Join(parts[..i], Separator) + (if i > 0 then Separator else "") + parts[i]
  {
    assert parts[..i + 1][..i] == parts[..i];
    if i == 0 {
      assert Join(parts[..0], Separator) == "";
      assert "" + "" + parts[0] == parts[0];
    }
  }

  // ---------------------------------------------------------------------------
  // Reading a signature back
  // ---------------------------------------------------------------------------

  /** The index of the last ',' in `s`, -1 when there is none. */
  function LastComma(s: string): (k: int)
    ensures -1 <= k < |s|
    ensures k >= 0 ==> s[k] == ','
  {
    if s == [] then -1
    else if s[|s| - 1] == ',' then |s| - 1
    else LastComma(s[..|s| - 1])
  }

  /** Text without a ',' at the end does not move the last comma. */
  lemma {:induction false} LastCommaSkip(x: string, b: string)
    requires ',' !in b
    ensures LastComma(x + b) == LastComma(x)
  {
    if b != [] {
      var y := b[..|b| - 1];
      assert (x + b)[..|x + b| - 1] == x + y;
      assert b[|b| - 1] in b;
      LastCommaSkip(x, y);
    } else {
      assert x + b == x;
    }
  }

  /** Splits at every ", ", from the back: the inverse of joining parts that
      hold no ','. */
  function Unjoin(s: string): seq<string>
    decreases |s|
  {
    var k := LastComma(s);
    if k < 0 || k + 2 > |s| then [s] else Unjoin(s[..k]) + [s[k + 2..]]
  }

  /** Joining with ", " and splitting again gives back the parts, when there
      is at least one and none holds a ','. */
  lemma {:induction false} UnjoinJoin(parts: seq<string>)
    requires |parts| >= 1
    requires forall i :: 0 <= i < |parts| ==> ',' !in parts[i]
    ensures Unjoin(Join(parts, Separator)) == parts
  {
    var n := |parts|;
    if n == 1 {
      LastCommaSkip([], parts[0]);
      assert [] + parts[0] == parts[0];
    } else {
      var front := parts[..n - 1];
      var a := Join(front, Separator);
      var s := Join(parts, Separator);
      assert s == a + Separator + parts[n - 1];
      assert s == (a + ",") + (" " + parts[n - 1]);
      assert ',' !in " " + parts[n - 1] by {
        assert ',' !in parts[n - 1];
      }
      LastCommaSkip(a + ",", " " + parts[n - 1]);
      assert LastComma(a + ",") == |a|;
      assert s[..|a|] == a;
      assert s[|a| + 2..] == parts[n - 1];
      UnjoinJoin(front);
      assert front + [parts[n - 1]] == parts;
    }
  }

  /** Reads a signature with the given head back into its parts; `None` when
      the text does not have the head and the closing ")". */
  function ParseSignature(head: string, s: string): Option<seq<string>>
  {
    if |s| >= |head| + 1 && s[..|head|] == head && s[|s| - 1] == ')'
    then Some(Unjoin(s[|head|..|s| - 1]))
    else None
  }

  /** Printing and reading back give the parts again. */
  lemma SignatureRoundTrip(head: string, parts: seq<string>)
    requires |parts| >= 1
    requires forall i :: 0 <= i < |parts| ==> ',' !in parts[i]
    ensures ParseSignature(head, Signature(head, parts)) == Some(parts)
  {
    var s := Signature(head, parts);
    var j := Join(parts, Separator);
    assert s[..|head|] == head;
    assert s[|head|..|s| - 1] == j;
    UnjoinJoin(parts);
  }

  /** No part and a single empty part print alike, so the round trip needs at
      least one part. */
  lemma EmptyListPrintsLikeEmptyName(head: string)
    ensures Signature(head, []) == Signature(head, [""]) == head + ")"
  {
    assert head + "" + ")" == head + ")";
  }

  /** The number of ',' in a signature: one per separator, n - 1 for n parts,
      when neither the head nor any part holds one. */
  lemma {:induction false} SignatureSeparatorCount(head: string, parts: seq<string>)
    requires ',' !in head
    requires forall i :: 0 <= i < |parts| ==> ',' !in parts[i]
    ensures CountChar(Signature(head, parts), ',') == if |parts| == 0 then 0 else |parts| - 1
  {
    var j := Join(parts, Separator);
    assert Separator[0] == ',';
    assert CountChar(Separator, ',') == 1 by {
      assert Separator[1..] == " ";
      assert " "[1..] == "";
    }
    NoCommaCountsNone(head);
    forall i | 0 <= i < |parts|
      ensures CountChar(parts[i], ',') == 0
    {
      NoCommaCountsNone(parts[i]);
    }
    JoinSeparatorCount(parts, Separator);
    CountCharAppend(head, j, ',');
    CountCharAppend(head + j, ")", ',');
    assert ")"[1..] == "";
  }

  /** A string without ',' counts none. */
  lemma {:induction false} NoCommaCountsNone(s: string)
    requires ',' !in s
    ensures CountChar(s, ',') == 0
  {
    if s != [] {
      assert s[1..] == s[1..] && forall c :: c in s[1..] ==> c in s;
      NoCommaCountsNone(s[1..]);
    }
  }

  // ---------------------------------------------------------------------------
  // Binding texts read back
  // ---------------------------------------------------------------------------

  /** The index of the first '=' in `s`, |s| when there is none. */
  function FirstEquals(s: string): (k: nat)
    ensures k <= |s|
    ensures forall i :: 0 <= i < k ==> s[i] != '='
    ensures k < |s| ==> s[k] == '='
  {
    if s == [] then 0
    else if s[0] == '=' then 0
    else 1 + FirstEquals(s[1..])
  }

  /** Splits "name=value" at the first '='. */
  function SplitBinding(t: string): (string, string)
  {
    var k := FirstEquals(t);
    if k < |t| then (t[..k], t[k + 1..]) else (t, "")
  }

  /** A binding's text splits back into its name and value string when the
      name holds no '='. */
  lemma SplitBindingText(b: Binding)
    requires '=' !in b.name
    ensures SplitBinding(BindingText(b)) == (b.name, StringValue(b.value))
  {
    var t := BindingText(b);
    var k := FirstEquals(t);
    assert t[|b.name|] == '=';
    assert k == |b.name|;
    assert t[..k] == b.name;
    assert t[k + 1..] == StringValue(b.value);
  }

  /** The bindings signature reads back into the same names and value
      strings, in list order, when there is at least one binding, no name
      holds ',' or '=', and no value string holds ','. */
  lemma BindingsRoundTrip(bs: seq<Binding>)
    requires |bs| >= 1
    requires forall i :: 0 <= i < |bs| ==> ',' !in bs[i].name && '=' !in bs[i].name
    requires forall i :: 0 <= i < |bs| ==> ',' !in StringValue(bs[i].value)
    ensures var p := ParseSignature(BindingsHead, Signature(BindingsHead, BindingTexts(bs)));
            p.Some? && |p.value| == |bs|
            && forall i :: 0 <= i < |bs| ==> SplitBinding(p.value[i]) == (bs[i].name, StringValue(bs[i].value))
  {
    var texts := BindingTexts(bs);
    forall i | 0 <= i < |texts|
      ensures ',' !in texts[i]
    {
      assert texts[i] == bs[i].name + "=" + StringValue(bs[i].value);
    }
    SignatureRoundTrip(BindingsHead, texts);
    forall i | 0 <= i < |bs|
      ensures SplitBinding(texts[i]) == (bs[i].name, StringValue(bs[i].value))
    {
      SplitBindingText(bs[i]);
    }
  }

  // ---------------------------------------------------------------------------
  // The nodes and the visitor
  // ---------------------------------------------------------------------------

  /** A helper node as a visitor meets it. */
  datatype OtherNode = LocalVars(localVarsNode: LocalVarsNode) | AdditionalBindings(bindingsNode: AdditionalBindingsNode)

  /** A visitor, as far as these nodes are concerned: it records the nodes
      `meetOther` is called on, in order. */
  class Visitor {
    var met: seq<OtherNode>

    constructor ()
      ensures met == []
    {
      met := [];
    }

    /** `meetOther(node)`. */
    method MeetOther(n: OtherNode)
      modifies this
      ensures met == old(met) + [n]
    {
      met := met + [n];
    }
  }

  class LocalVarsNode {
    const localVars: seq<string>

    constructor (localVars: seq<string>)
      ensures this.localVars == localVars
    {
      this.localVars := localVars;
    }

    /** `visit(visitor)`: the visitor meets this node as an "other" node. */
    method Visit(visitor: Visitor)
      modifies visitor
      ensures visitor.met == old(visitor.met) + [LocalVars(this)]
    {
      visitor.MeetOther(LocalVars(this));
    }

    /** `getSignature()`: "LocalVars (" + the names joined with ", " + ")". */
    method GetSignature() returns (s: string)
      ensures s == Signature(LocalVarsHead, localVars)
    {
      var sb := LocalVarsHead;
      for i := 0 to |localVars|
        invariant sb == LocalVarsHead + Join(localVars[..i], Separator) + (if 0 < i < |localVars| then Separator else "")
      {
        JoinStep(localVars, i);
        sb := sb + localVars[i];
        if i < |localVars| - 1 {
          sb := sb + Separator;
        }
      }
      assert localVars[..|localVars|] == localVars;
      s := sb + ")";
    }

    /** The static `visit(visitor, localVars)`: one new node for the list, met
        exactly once. */
    static method VisitOf(visitor: Visitor, localVars: seq<string>)
      modifies visitor
      ensures |visitor.met| == |old(visitor.met)| + 1
      ensures visitor.met[..|old(visitor.met)|] == old(visitor.met)
      ensures var n := visitor.met[|old(visitor.met)|];
              n.LocalVars? && fresh(n.localVarsNode) && n.localVarsNode.localVars == localVars
    {
      var node := new LocalVarsNode(localVars);
      node.Visit(visitor);
    }
  }

  class AdditionalBindingsNode {
    const additionalValues: seq<Binding>

    constructor (additionalValues: seq<Binding>)
      ensures this.additionalValues == additionalValues
    {
      this.additionalValues := additionalValues;
    }

    /** `visit(visitor)`: the visitor meets this node as an "other" node. */
    method Visit(visitor: Visitor)
      modifies visitor
      ensures visitor.met == old(visitor.met) + [AdditionalBindings(this)]
    {
      visitor.MeetOther(AdditionalBindings(this));
    }

    /** `getSignature()`: "Additional Bindings (" + the name=value pairs
        joined with ", " + ")". */
    method GetSignature() returns (s: string)
      ensures s == Signature(BindingsHead, BindingTexts(additionalValues))
    {
      var texts := BindingTexts(additionalValues);
      var sb := BindingsHead;
      for i := 0 to |additionalValues|
        invariant sb == BindingsHead + Join(texts[..i], Separator) + (if 0 < i < |texts| then Separator else "")
      {
        var text := additionalValues[i].name + "=" + StringValue(additionalValues[i].value);
        assert text == texts[i];
        JoinStep(texts, i);
        sb := sb + text;
        assert sb == BindingsHead + Join(texts[..i + 1], Separator);
        if i < |additionalValues| - 1 {
          sb := sb + Separator;
        }
      }
      assert texts[..|texts|] == texts;
      s := sb + ")";
    }

    /** The static `visit(visitor, additionalValues)`: one new node for the
        list, met exactly once. */
    static method VisitOf(visitor: Visitor, additionalValues: seq<Binding>)
      modifies visitor
      ensures |visitor.met| == |old(visitor.met)| + 1
      ensures visitor.met[..|old(visitor.met)|] == old(visitor.met)
      ensures var n := visitor.met[|old(visitor.met)|];
              n.AdditionalBindings? && fresh(n.bindingsNode) && n.bindingsNode.additionalValues == additionalValues
    {
      var node := new AdditionalBindingsNode(additionalValues);
      node.Visit(visitor);
    }
  }

  /** The local-variables signature has n - 1 separators for n names without
      ','. */
  lemma LocalVarsSeparatorCount(localVars: seq<string>)
    requires forall i :: 0 <= i < |localVars| ==> ',' !in localVars[i]
    ensures CountChar(Signature(LocalVarsHead, localVars), ',') == if |localVars| == 0 then 0 else |localVars| - 1
  {
    SignatureSeparatorCount(LocalVarsHead, localVars);
  }

  /** The bindings signature has n - 1 separators for n bindings whose names
      and value strings hold no ','. */
  lemma BindingsSeparatorCount(bs: seq<Binding>)
    requires forall i :: 0 <= i < |bs| ==> ',' !in bs[i].name && ',' !in StringValue(bs[i].value)
    ensures CountChar(Signature(BindingsHead, BindingTexts(bs)), ',') == if |bs| == 0 then 0 else |bs| - 1
  {
    var texts := BindingTexts(bs);
    forall i | 0 <= i < |texts|
      ensures ',' !in texts[i]
    {
      assert texts[i] == bs[i].name + "=" + StringValue(bs[i].value);
    }
    SignatureSeparatorCount(BindingsHead, texts);
  }
}
