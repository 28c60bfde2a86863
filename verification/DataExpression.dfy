/**
 The feed filter language of model/data_expression.go: raw JSON trees, the expression types, the
 parser that drops placeholder nodes and the printer given by the struct tags.
 */
module DataExpression {
  import opened Wrappers

  /** A decoded JSON document. An object holds each key once, as Go's map decoding leaves it. */
  datatype Json =
    | Null
    | Bool(b: bool)
    | Number(n: int)
    | Str(s: string)
    | Arr(items: seq<Json>)
    | Obj(fields: map<string, Json>)

  const ID := "id"
  const EXPR := "expr"
  const ALL_OF := "allOf"
  const ANY_OF := "anyOf"
  const NOT_TRUE := "notTrue"
  const PRED := "pred"
  const TYPE := "type"
  const PARAM := "param"
  const TEXT := "text"
  // encoding/json treats an embedded interface as an ordinary field named after its type
  const EMBEDDED := "ExpressionNode"
  const LITERAL := "LITERAL"

  /** Predicate together with its Literal parameter. */
  datatype Predicate = Predicate(kind: string, text: string)

  datatype Wrap = Wrap(id: string, expr: Node) {
    /** DataExpressionWrap.IsEmpty: a pure id expression. */
    predicate IsEmpty() {
      expr.Unset?
    }
  }

  /** ExpressionNode: Unset is the nil interface, Foreign is any other implementation of the
      interface, known only by how it prints. */
  datatype Node =
    | Unset
    | AllOf(allOf: seq<Wrap>)
    | AnyOf(anyOf: seq<Wrap>)
    | NotTrue(notTrue: Wrap)
    | PredicateWrap(pred: Predicate)
    | Foreign(rendering: Json)

  const EmptyWrap := Wrap("", Unset)

  lemma {:induction false} KeysDistinct()
    ensures ID != EXPR
    ensures ALL_OF != ANY_OF && ALL_OF != NOT_TRUE && ALL_OF != PRED && ALL_OF != EMBEDDED
    ensures ANY_OF != NOT_TRUE && ANY_OF != PRED && ANY_OF != EMBEDDED
    ensures NOT_TRUE != PRED && NOT_TRUE != EMBEDDED && PRED != EMBEDDED
    ensures TYPE != PARAM
  {
    assert ALL_OF[1] != ANY_OF[1];
    assert TYPE[0] != PARAM[0];
  }

  // ---------- the parser, as a function ----------

  /** Decoding a string field of a struct: a missing or null field leaves the zero value. */
  function StringField(fields: map<string, Json>, key: string): Outcome<string> {
    if key !in fields || fields[key].Null? then Ok("")
    else if fields[key].Str? then Ok(fields[key].s)
    else Error
  }

  function UnmarshalLiteral(fields: map<string, Json>): Outcome<string> {
    if PARAM !in fields || fields[PARAM].Null? then Ok("")
    else if fields[PARAM].Obj? then StringField(fields[PARAM].fields, TEXT)
    else Error
  }

  function UnmarshalPredicate(j: Json): Outcome<Predicate> {
    if !j.Obj? then Error
    else
      var kind :- StringField(j.fields, TYPE);
      var text :- UnmarshalLiteral(j.fields);
      Ok(Predicate(kind, text))
  }

  function Unmarshal(j: Json): Outcome<Wrap>
    decreases j, 1
  {
    match j
    case Null => Ok(EmptyWrap)
    case Obj(m) =>
      if EXPR !in m then Ok(EmptyWrap)
      else if ID !in m || m[ID].Null? then Panic
      else if !m[ID].Str? then Error
      else if m[EXPR].Null? then Panic
      else if !m[EXPR].Obj? then Error
      else
        var node :- UnmarshalNode(m[EXPR]);
        Ok(Wrap(m[ID].s, node))
    case _ => Error
  }

  function UnmarshalNode(j: Json): Outcome<Node>
    requires j.Obj?
    decreases j, 0
  {
    var e := j.fields;
    if ALL_OF in e then
      if e[ALL_OF].Null? then Panic
      else if !e[ALL_OF].Arr? then Error
      else
        var children :- UnmarshalAll(e[ALL_OF].items);
        Ok(AllOf(children))
    else if ANY_OF in e then
      if e[ANY_OF].Null? then Panic
      else if !e[ANY_OF].Arr? then Error
      else
        var children :- UnmarshalAll(e[ANY_OF].items);
        Ok(AnyOf(children))
    else if NOT_TRUE in e then
      if e[NOT_TRUE].Null? then Panic
      else
        var child :- Unmarshal(e[NOT_TRUE]);
        Ok(if child.IsEmpty() then Unset else NotTrue(child))
    else if PRED in e then
      if e[PRED].Null? then Panic
      else
        var p :- UnmarshalPredicate(e[PRED]);
        Ok(PredicateWrap(p))
    else
      Ok(Unset)
  }

  /** The children of an allOf or anyOf list, without the empty ones. */
  function UnmarshalAll(items: seq<Json>): Outcome<seq<Wrap>>
    decreases items, 0
  {
    if items == [] then Ok([])
    else if items[0].Null? then Panic
    else
      var first :- Unmarshal(items[0]);
      var rest :- UnmarshalAll(items[1..]);
      Ok(if first.IsEmpty() then rest else [first] + rest)
  }

  // ---------- the parser, as the source runs it ----------

  ghost function Prepend(done: seq<Wrap>, rest: Outcome<seq<Wrap>>): Outcome<seq<Wrap>> {
    if rest.Ok? then Ok(done + rest.value) else rest
  }

  lemma {:induction false} PrependNothing(rest: Outcome<seq<Wrap>>)
    ensures Prepend([], rest) == rest
  {
    if rest.Ok? {
      assert [] + rest.value == rest.value;
    }
  }

  lemma {:induction false} PrependOne(done: seq<Wrap>, w: Wrap, rest: Outcome<seq<Wrap>>)
    ensures Prepend(done, Prepend([w], rest)) == Prepend(done + [w], rest)
  {
    if rest.Ok? {
      assert done + ([w] + rest.value) == done + [w] + rest.value;
    }
  }

  /** The loop over the raw children, shared by the allOf and anyOf branches. */
  method UnmarshalList(items: seq<Json>) returns (r: Outcome<seq<Wrap>>)
    ensures r == UnmarshalAll(items)
    decreases items, 0
  {
    var children: seq<Wrap> := [];
    assert items[0..] == items;
    PrependNothing(UnmarshalAll(items));
    for i := 0 to |items|
      invariant UnmarshalAll(items) == Prepend(children, UnmarshalAll(items[i..]))
    {
      assert items[i..][0] == items[i] && items[i..][1..] == items[i + 1..];
      if items[i].Null? {
        return Panic;
      }
      var child := UnmarshalJSON(items[i]);
      if child.IsFailure() {
        return child.PropagateFailure();
      }
      if !child.value.IsEmpty() {
        PrependOne(children, child.value, UnmarshalAll(items[i + 1..]));
        children := children + [child.value];
      }
    }
    assert items[|items|..] == [] && children + [] == children;
    return Ok(children);
  }

  /** DataExpressionWrap.UnmarshalJSON on a zero target. */
  method UnmarshalJSON(j: Json) returns (r: Outcome<Wrap>)
    ensures r == Unmarshal(j)
    decreases j, 1
  {
    var target := EmptyWrap;
    if j.Null? {
      return Ok(target);
    }
    if !j.Obj? {
      return Error;
    }
    var objMap := j.fields;
    if EXPR !in objMap {
      return Ok(target);
    }
    if ID !in objMap || objMap[ID].Null? {
      return Panic;
    }
    if !objMap[ID].Str? {
      return Error;
    }
    target := target.(id := objMap[ID].s);
    if objMap[EXPR].Null? {
      return Panic;
    }
    if !objMap[EXPR].Obj? {
      return Error;
    }
    var expr := objMap[EXPR].fields;
    if ALL_OF in expr || ANY_OF in expr {
      var all := ALL_OF in expr;
      var val := if all then expr[ALL_OF] else expr[ANY_OF];
      if val.Null? {
        return Panic;
      }
      if !val.Arr? {
        return Error;
      }
      var children := UnmarshalList(val.items);
      if children.IsFailure() {
        return children.PropagateFailure();
      }
      target := target.(expr := if all then AllOf(children.value) else AnyOf(children.value));
    } else if NOT_TRUE in expr {
      if expr[NOT_TRUE].Null? {
        return Panic;
      }
      var child := UnmarshalJSON(expr[NOT_TRUE]);
      if child.IsFailure() {
        return child;
      }
      if !child.value.IsEmpty() {
        target := target.(expr := NotTrue(child.value));
      }
    } else if PRED in expr {
      if expr[PRED].Null? {
        return Panic;
      }
      var p := UnmarshalPredicate(expr[PRED]);
      if p.IsFailure() {
        return p.PropagateFailure();
      }
      target := target.(expr := PredicateWrap(p.value));
    }
    return Ok(target);
  }

  // ---------- which documents the parser accepts ----------

  ghost predicate WellFormedString(fields: map<string, Json>, key: string) {
    key in fields ==> fields[key].Null? || fields[key].Str?
  }

  ghost predicate WellFormedPredicate(j: Json) {
    && j.Obj?
    && WellFormedString(j.fields, TYPE)
    && (PARAM in j.fields ==>
          j.fields[PARAM].Null? || (j.fields[PARAM].Obj? && WellFormedString(j.fields[PARAM].fields, TEXT)))
  }

  /** The first of the four known keys decides; its list may hold no null. */
  ghost predicate WellFormed(j: Json)
    decreases j, 1
  {
    match j
    case Null => true
    case Obj(m) =>
      EXPR in m ==>
        && ID in m && m[ID].Str?
        && m[EXPR].Obj? && WellFormedNode(m[EXPR])
    case _ => false
  }

  ghost predicate WellFormedList(j: Json)
    decreases j, 0
  {
    j.Arr? && forall i | 0 <= i < |j.items| :: !j.items[i].Null? && WellFormed(j.items[i])
  }

  ghost predicate WellFormedNode(j: Json)
    requires j.Obj?
    decreases j, 0
  {
    var e := j.fields;
    if ALL_OF in e then WellFormedList(e[ALL_OF])
    else if ANY_OF in e then WellFormedList(e[ANY_OF])
    else if NOT_TRUE in e then !e[NOT_TRUE].Null? && WellFormed(e[NOT_TRUE])
    else PRED in e ==> WellFormedPredicate(e[PRED])
  }

  /** Parsing succeeds on exactly the well-formed documents; every other one errors or panics. */
  lemma {:induction false} AcceptsExactlyWellFormed(j: Json)
    ensures Unmarshal(j).Ok? <==> WellFormed(j)
    decreases j, 1
  {
    if j.Obj? && EXPR in j.fields && j.fields[EXPR].Obj? {
      AcceptsExactlyWellFormedNode(j.fields[EXPR]);
    }
  }

  lemma {:induction false} AcceptsExactlyWellFormedNode(j: Json)
    requires j.Obj?
    ensures UnmarshalNode(j).Ok? <==> WellFormedNode(j)
    decreases j, 0
  {
    var e := j.fields;
    if ALL_OF in e {
      if e[ALL_OF].Arr? { AcceptsExactlyWellFormedItems(e[ALL_OF].items); }
    } else if ANY_OF in e {
      if e[ANY_OF].Arr? { AcceptsExactlyWellFormedItems(e[ANY_OF].items); }
    } else if NOT_TRUE in e {
      AcceptsExactlyWellFormed(e[NOT_TRUE]);
    }
  }

  lemma {:induction false} AcceptsExactlyWellFormedItems(items: seq<Json>)
    ensures UnmarshalAll(items).Ok? <==> forall i | 0 <= i < |items| :: !items[i].Null? && WellFormed(items[i])
    decreases items, 0
  {
    if items == [] {
    } else {
      AcceptsExactlyWellFormed(items[0]);
      AcceptsExactlyWellFormedItems(items[1..]);
      assert forall i | 1 <= i < |items| :: items[i] == items[1..][i - 1];
    }
  }

  /** Which documents make the parser dereference nil: an id or node that is missing or null, a null in
      place of a list, its children, an operand or a predicate, in the first place that is not well-formed. */
  ghost predicate HasNil(j: Json)
    decreases j, 1
  {
    && j.Obj? && EXPR in j.fields
    && (ID in j.fields && j.fields[ID].Str? ==>
          j.fields[EXPR].Null? || (j.fields[EXPR].Obj? && NodeHasNil(j.fields[EXPR])))
    && (ID in j.fields ==> j.fields[ID].Null? || j.fields[ID].Str?)
  }

  ghost predicate ListHasNil(j: Json)
    decreases j
  {
    j.Null? || (j.Arr? && SomeIsNil(j.items))
  }

  /** Nil comes before anything else that is wrong. */
  ghost predicate SomeIsNil(items: seq<Json>)
    decreases items, 0
  {
    items != [] &&
    (items[0].Null? || HasNil(items[0]) || (WellFormed(items[0]) && SomeIsNil(items[1..])))
  }

  ghost predicate NodeHasNil(j: Json)
    requires j.Obj?
    decreases j, 0
  {
    var e := j.fields;
    if ALL_OF in e then ListHasNil(e[ALL_OF])
    else if ANY_OF in e then ListHasNil(e[ANY_OF])
    else if NOT_TRUE in e then e[NOT_TRUE].Null? || HasNil(e[NOT_TRUE])
    else PRED in e && e[PRED].Null?
  }

  lemma {:induction false} PanicsExactlyOnNil(j: Json)
    ensures Unmarshal(j).Panic? <==> HasNil(j)
    decreases j, 1
  {
    if j.Obj? && EXPR in j.fields && j.fields[EXPR].Obj? {
      NodePanicsOnNil(j.fields[EXPR]);
    }
  }

  lemma {:induction false} NodePanicsOnNil(j: Json)
    requires j.Obj?
    ensures UnmarshalNode(j).Panic? <==> NodeHasNil(j)
    decreases j, 0
  {
    var e := j.fields;
    if ALL_OF in e {
      if e[ALL_OF].Arr? { ItemsPanicOnNil(e[ALL_OF].items); }
    } else if ANY_OF in e {
      if e[ANY_OF].Arr? { ItemsPanicOnNil(e[ANY_OF].items); }
    } else if NOT_TRUE in e {
      PanicsExactlyOnNil(e[NOT_TRUE]);
    }
  }

  lemma {:induction false} ItemsPanicOnNil(items: seq<Json>)
    ensures UnmarshalAll(items).Panic? <==> SomeIsNil(items)
    decreases items, 0
  {
    if items == [] {
    } else {
      PanicsExactlyOnNil(items[0]);
      AcceptsExactlyWellFormed(items[0]);
      ItemsPanicOnNil(items[1..]);
    }
  }

  // ---------- the printer ----------

  /** json.Marshal of a DataExpressionWrap. */
  function Marshal(w: Wrap): Json
    decreases w, 1
  {
    Obj(map[ID := Str(w.id), EXPR := MarshalNode(w.expr)])
  }

  function MarshalNode(n: Node): Json
    decreases n, 0
  {
    match n
    case Unset => Null
    case AllOf(ws) => Obj(map[EMBEDDED := Null, ALL_OF := Arr(MarshalAll(ws))])
    case AnyOf(ws) => Obj(map[EMBEDDED := Null, ANY_OF := Arr(MarshalAll(ws))])
    case NotTrue(w) => Obj(map[EMBEDDED := Null, NOT_TRUE := Marshal(w)])
    case PredicateWrap(p) =>
      Obj(map[EMBEDDED := Null,
              PRED := Obj(map[TYPE := Str(p.kind), PARAM := Obj(map[TEXT := Str(p.text)])])])
    case Foreign(rendering) => rendering
  }

  function MarshalAll(ws: seq<Wrap>): seq<Json>
    decreases ws, 0
  {
    if ws == [] then [] else [Marshal(ws[0])] + MarshalAll(ws[1..])
  }

  /** The keys and nesting of the printed form. */
  lemma {:induction false} PrintedForm(id: string, ws: seq<Wrap>, w: Wrap, kind: string, text: string)
    ensures Marshal(Wrap(id, AllOf(ws))) ==
            Obj(map["id" := Str(id), "expr" := Obj(map["ExpressionNode" := Null, "allOf" := Arr(MarshalAll(ws))])])
    ensures Marshal(Wrap(id, AnyOf(ws))) ==
            Obj(map["id" := Str(id), "expr" := Obj(map["ExpressionNode" := Null, "anyOf" := Arr(MarshalAll(ws))])])
    ensures Marshal(Wrap(id, NotTrue(w))) ==
            Obj(map["id" := Str(id), "expr" := Obj(map["ExpressionNode" := Null, "notTrue" := Marshal(w)])])
    ensures Marshal(Wrap(id, PredicateWrap(Predicate(kind, text)))) ==
            Obj(map["id" := Str(id), "expr" := Obj(map["ExpressionNode" := Null,
              "pred" := Obj(map["type" := Str(kind), "param" := Obj(map["text" := Str(text)])])])])
  {
  }

  // ---------- parser and printer undo each other ----------

  /** No empty and no foreign node anywhere. */
  ghost predicate Closed(w: Wrap) {
    match w.expr
    case Unset => false
    case AllOf(ws) => forall i | 0 <= i < |ws| :: Closed(ws[i])
    case AnyOf(ws) => forall i | 0 <= i < |ws| :: Closed(ws[i])
    case NotTrue(c) => Closed(c)
    case PredicateWrap(_) => true
    case Foreign(_) => false
  }

  /** Whatever the document, a parsed expression has no empty node below its root. */
  lemma {:induction false} ParsedIsClosed(j: Json)
    requires Unmarshal(j).Ok?
    ensures Unmarshal(j).value.IsEmpty() || Closed(Unmarshal(j).value)
    decreases j, 1
  {
    if j.Obj? && EXPR in j.fields {
      var e := j.fields[EXPR].fields;
      if ALL_OF in e {
        ParsedItemsAreClosed(e[ALL_OF].items);
      } else if ANY_OF in e {
        ParsedItemsAreClosed(e[ANY_OF].items);
      } else if NOT_TRUE in e {
        ParsedIsClosed(e[NOT_TRUE]);
      }
    }
  }

  lemma {:induction false} ParsedItemsAreClosed(items: seq<Json>)
    requires UnmarshalAll(items).Ok?
    ensures forall k | 0 <= k < |UnmarshalAll(items).value| :: Closed(UnmarshalAll(items).value[k])
    decreases items, 0
  {
    if items == [] {
    } else {
      ParsedIsClosed(items[0]);
      ParsedItemsAreClosed(items[1..]);
    }
  }

  /** Printing and parsing again gives the same expression, ids included, exactly when the
      expression has no empty and no foreign node. */
  lemma {:induction false} RoundTrip(w: Wrap)
    ensures Unmarshal(Marshal(w)) == Ok(w) <==> Closed(w)
  {
    if Closed(w) {
      ClosedRoundTrip(w);
    } else {
      KeysDistinct();
      if Unmarshal(Marshal(w)) == Ok(w) {
        ParsedIsClosed(Marshal(w));
        assert w.IsEmpty();
        assert Marshal(w).fields[EXPR].Null?;
        assert false;
      }
    }
  }

  lemma {:induction false} ClosedRoundTrip(w: Wrap)
    requires Closed(w)
    ensures Unmarshal(Marshal(w)) == Ok(w)
    decreases w, 1
  {
    KeysDistinct();
    match w.expr
    case AllOf(ws) => ClosedListRoundTrip(ws);
    case AnyOf(ws) => ClosedListRoundTrip(ws);
    case NotTrue(c) => ClosedRoundTrip(c);
    case PredicateWrap(_) =>
  }

  lemma {:induction false} ClosedListRoundTrip(ws: seq<Wrap>)
    requires forall i | 0 <= i < |ws| :: Closed(ws[i])
    ensures UnmarshalAll(MarshalAll(ws)) == Ok(ws)
    decreases ws, 0
  {
    if ws == [] {
    } else {
      ClosedRoundTrip(ws[0]);
      ClosedListRoundTrip(ws[1..]);
      assert [ws[0]] + ws[1..] == ws;
      assert MarshalAll(ws)[0] == Marshal(ws[0]) && MarshalAll(ws)[1..] == MarshalAll(ws[1..]);
    }
  }

  /** Storing a non-empty parsed filter and reading it back loses nothing. */
  lemma {:induction false} ParsePrintParse(j: Json)
    requires Unmarshal(j).Ok?
    ensures Unmarshal(Marshal(Unmarshal(j).value)) ==
            if Unmarshal(j).value.IsEmpty() then Panic else Unmarshal(j)
  {
    ParsedIsClosed(j);
    var w := Unmarshal(j).value;
    if w.IsEmpty() {
      KeysDistinct();
      assert Marshal(w).fields[EXPR].Null?;
    } else {
      ClosedRoundTrip(w);
    }
  }
}
