/** The linked list of definition parameters. */
module Params {

  /** A list node: one parameter, without a leading plus, and whether it was looked up. */
  class Param {
    var used: bool
    const text: string
    var next: Param?

    /** Makes a node from str; one leading plus is not part of the parameter. */
    constructor (str: string)
      ensures text == StripPlus(str) && !used && next == null
    {
      used := false;
      next := null;
      text := StripPlus(str);
    }

    /** Makes a node with exactly this parameter. */
    constructor Exact(str: string)
      ensures text == str && !used && next == null
    {
      used := false;
      next := null;
      text := str;
    }
  }

  function StripPlus(s: string): string {
    if |s| > 0 && s[0] == '+' then s[1..] else s
  }

  function After(nodes: seq<Param>, i: nat): Param?
    requires i < |nodes|
  {
    if i + 1 < |nodes| then nodes[i+1] else null
  }

  /** nodes are the nodes of the list from head on, in order; no node occurs twice. */
  ghost predicate Linked(head: Param?, nodes: seq<Param>)
    reads nodes
  {
    && head == (if |nodes| == 0 then null else nodes[0])
    && (forall i | 0 <= i < |nodes| :: nodes[i].next == After(nodes, i))
    && (forall i, k | 0 <= i < k < |nodes| :: nodes[i] != nodes[k])
  }

  ghost function Texts(nodes: seq<Param>): (r: seq<string>)
    ensures |r| == |nodes|
  {
    seq(|nodes|, i requires 0 <= i < |nodes| => nodes[i].text)
  }

  /** The parameter text answers a request for name: it is the name alone or the name and a value. */
  predicate Answers(text: string, name: string) {
    name <= text && (|text| == |name| || text[|name|] == '=')
  }

  /** Nothing else answers: not a longer name, nor the name inside a value. */
  lemma AnswersIff(text: string, name: string)
    ensures Answers(text, name) <==> text == name || exists value: string :: text == name + "=" + value
  {
    if Answers(text, name) && text != name {
      assert text == name + "=" + text[|name|+1..];
    }
    if value: string :| text == name + "=" + value {
      assert text[|name|] == '=';
    }
  }

  /** Index of the first parameter that answers the request, or the number of parameters. */
  ghost function FirstAnswer(texts: seq<string>, name: string): (k: nat)
    ensures k <= |texts| && (k < |texts| ==> Answers(texts[k], name))
    ensures forall i | 0 <= i < k :: !Answers(texts[i], name)
  {
    if |texts| == 0 || Answers(texts[0], name) then 0 else 1 + FirstAnswer(texts[1..], name)
  }

  lemma FirstAnswerIs(texts: seq<string>, name: string, k: nat)
    requires k <= |texts| && forall i | 0 <= i < k :: !Answers(texts[i], name)
    requires k < |texts| ==> Answers(texts[k], name)
    ensures FirstAnswer(texts, name) == k
  {
    hide Answers;
  }

  /** Finds the first parameter of that name and marks it as used, unless the request is only a test
      for presence. */
  method Lookup(head: Param?, name: string, test: bool, ghost nodes: seq<Param>) returns (p: Param?)
    requires Linked(head, nodes)
    modifies nodes
    ensures Linked(head, nodes)
    ensures var k := FirstAnswer(Texts(nodes), name);
            p == (if k < |nodes| then nodes[k] else null) &&
            forall i | 0 <= i < |nodes| :: nodes[i].used == (old(nodes[i].used) || (i == k && !test))
  {
    p := head;
    ghost var i := 0;
    while p != null && !Answers(p.text, name)
      invariant 0 <= i <= |nodes| && p == if i < |nodes| then nodes[i] else null
      invariant forall k | 0 <= k < i :: !Answers(Texts(nodes)[k], name)
      decreases |nodes| - i
    {
      p := p.next;
      i := i + 1;
    }
    FirstAnswerIs(Texts(nodes), name, i);
    if !test && p != null {
      p.used := true;
    }
  }

  lemma NodeFacts(head: Param?, nodes: seq<Param>, i: nat)
    requires Linked(head, nodes) && i < |nodes|
    ensures nodes[i].next == After(nodes, i)
  {
  }

  lemma HeadFacts(head: Param?, nodes: seq<Param>)
    requires Linked(head, nodes)
    ensures head == if |nodes| == 0 then null else nodes[0]
  {
  }

  /** The nodes carry these texts and none has been used. */
  ghost predicate Plain(nodes: seq<Param>, texts: seq<string>)
    reads nodes
  {
    |nodes| == |texts| && forall i | 0 <= i < |nodes| :: nodes[i].text == texts[i] && !nodes[i].used
  }

  /** Links item behind the last node and returns the head of the longer list. */
  method Append(head: Param?, last: Param?, item: Param, ghost nodes: seq<Param>, ghost texts: seq<string>)
    returns (first: Param?)
    requires Linked(head, nodes) && last == (if |nodes| == 0 then null else nodes[|nodes|-1])
    requires Plain(nodes, texts)
    requires item !in nodes && item.next == null && !item.used
    modifies if last == null then {} else {last}
    ensures Linked(first, nodes + [item]) && Plain(nodes + [item], texts + [item.text])
    ensures |nodes| > 0 ==> first == head
  {
    if head == null {
      first := item;
    } else {
      last.next := item;
      first := head;
    }
  }

  lemma PlainTexts(nodes: seq<Param>, texts: seq<string>)
    requires Plain(nodes, texts)
    ensures Texts(nodes) == texts
    ensures forall i | 0 <= i < |nodes| :: !nodes[i].used
  {
  }

  lemma EmptyList()
    ensures Linked(null, []) && Plain([], [])
  {
  }

  /** A copy of the list: fresh nodes, the same texts in the same order, none of them used. */
  method Clone(head: Param?, ghost nodes: seq<Param>) returns (copy: Param?, ghost copies: seq<Param>)
    requires Linked(head, nodes)
    ensures Linked(copy, copies) && Texts(copies) == Texts(nodes)
    ensures forall i | 0 <= i < |copies| :: fresh(copies[i]) && !copies[i].used
  {
    hide Linked, Plain;
    HeadFacts(head, nodes);
    EmptyList();
    copy, copies := null, [];
    ghost var texts := Texts(nodes);
    var last: Param? := null;
    var p := head;
    ghost var i := 0;
    while p != null
      invariant 0 <= i == |copies| <= |nodes| && Linked(head, nodes)
      invariant p == if i < |nodes| then nodes[i] else null
      invariant Linked(copy, copies) && last == if i == 0 then null else copies[i-1]
      invariant Plain(copies, texts[..i]) && forall k | 0 <= k < i :: fresh(copies[k])
      decreases |nodes| - i
    {
      var item := new Param.Exact(p.text);
      copy := Append(copy, last, item, copies, texts[..i]);
      assert texts[..i+1] == texts[..i] + [p.text];
      last := item;
      copies := copies + [item];
      NodeFacts(head, nodes, i);
      p := p.next;
      i := i + 1;
    }
    assert texts[..i] == texts;
    PlainTexts(copies, texts);
  }
}
