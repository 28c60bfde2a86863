/**
 The matcher of utils/data_expression_utils.go. Case folding is a parameter `lower`: every
 statement holds for every folding.
 */
module PostMatching {
  import opened Wrappers
  import opened DataExpression

  /** What the matcher reads of a post: its content and the post it shares. */
  datatype PostChain = PostChain(content: string, sharedFrom: Option<PostChain>)

  /** A stored filter expression: the empty string, text that is no JSON document, or a document. */
  datatype FilterText = Blank | Malformed | Document(json: Json)

  // ---------- the evaluator ----------

  predicate OccursAt(hay: string, needle: string, k: nat)
    requires k <= |hay|
  {
    needle <= hay[k..]
  }

  /** strings.Contains */
  predicate Contains(hay: string, needle: string) {
    exists k | 0 <= k <= |hay| :: OccursAt(hay, needle, k)
  }

  predicate PredicateHolds(lower: string -> string, kind: string, text: string, content: string) {
    kind == LITERAL && Contains(lower(content), lower(text))
  }

  /** DataExpressionMatch: short-circuit evaluation on one post. */
  function DataExpressionMatch(lower: string -> string, w: Wrap, content: string): Outcome<bool>
    decreases w, 1
  {
    match w.expr
    case Unset => Ok(true)
    case AllOf(ws) => MatchAllOf(lower, ws, content)
    case AnyOf(ws) => if ws == [] then Ok(true) else MatchAnyOf(lower, ws, content)
    case NotTrue(c) =>
      var matched :- DataExpressionMatch(lower, c, content);
      Ok(!matched)
    case PredicateWrap(p) => Ok(PredicateHolds(lower, p.kind, p.text, content))
    case Foreign(_) => Error
  }

  function MatchAllOf(lower: string -> string, ws: seq<Wrap>, content: string): Outcome<bool>
    decreases ws, 0
  {
    if ws == [] then Ok(true)
    else
      var matched :- DataExpressionMatch(lower, ws[0], content);
      if !matched then Ok(false) else MatchAllOf(lower, ws[1..], content)
  }

  function MatchAnyOf(lower: string -> string, ws: seq<Wrap>, content: string): Outcome<bool>
    decreases ws, 0
  {
    if ws == [] then Ok(false)
    else
      var matched :- DataExpressionMatch(lower, ws[0], content);
      if matched then Ok(true) else MatchAnyOf(lower, ws[1..], content)
  }

  /** DataExpressionMatchPostChain: the expression is parsed again at every post of the chain. */
  function DataExpressionMatchPostChain(lower: string -> string, text: FilterText, post: PostChain): Outcome<bool>
    decreases post
  {
    match text
    case Blank => Ok(true)
    case Malformed => Error
    case Document(j) =>
      var w :- Unmarshal(j);
      var matched :- DataExpressionMatch(lower, w, post.content);
      if matched then Ok(true)
      else if post.sharedFrom.Some? then DataExpressionMatchPostChain(lower, text, post.sharedFrom.value)
      else Ok(false)
  }

  // ---------- what a parsed expression means ----------

  /** The part stands somewhere in the text. */
  ghost predicate Mentions(text: string, part: string) {
    exists before, behind :: text == before + part + behind
  }

  lemma {:induction false} ContainsIff(hay: string, needle: string)
    ensures Contains(hay, needle) <==> Mentions(hay, needle)
  {
    if Contains(hay, needle) {
      var k :| 0 <= k <= |hay| && OccursAt(hay, needle, k);
      assert hay == hay[..k] + needle + hay[k + |needle|..];
    }
    if Mentions(hay, needle) {
      var before, behind :| hay == before + needle + behind;
      assert hay[|before|..] == needle + behind;
      assert OccursAt(hay, needle, |before|);
    }
  }

  /** When a predicate node matches: it is a literal, and its text stands somewhere in the content, both
      folded. It never errs. */
  lemma {:induction false} LiteralMatchIff(lower: string -> string, id: string, kind: string, text: string,
      content: string)
    ensures var answer := DataExpressionMatch(lower, Wrap(id, PredicateWrap(Predicate(kind, text))), content);
            && answer.Ok?
            && (answer.value <==>
                kind == "LITERAL" && exists before, behind :: lower(content) == before + lower(text) + behind)
  {
    ContainsIff(lower(content), lower(text));
  }

  /** Quantifier semantics of an expression without foreign nodes. */
  ghost predicate Truth(lower: string -> string, w: Wrap, content: string)
    decreases w
  {
    match w.expr
    case Unset => true
    case AllOf(ws) => forall i | 0 <= i < |ws| :: Truth(lower, ws[i], content)
    case AnyOf(ws) => ws == [] || exists i | 0 <= i < |ws| :: Truth(lower, ws[i], content)
    case NotTrue(c) => !Truth(lower, c, content)
    case PredicateWrap(p) => p.kind == "LITERAL" && Mentions(lower(content), lower(p.text))
    case Foreign(_) => false
  }

  ghost predicate NoForeign(w: Wrap) {
    match w.expr
    case AllOf(ws) => forall i | 0 <= i < |ws| :: NoForeign(ws[i])
    case AnyOf(ws) => forall i | 0 <= i < |ws| :: NoForeign(ws[i])
    case NotTrue(c) => NoForeign(c)
    case Foreign(_) => false
    case _ => true
  }

  /** Short-circuiting changes nothing: on every known expression, also one with empty nodes, the
      evaluator answers without error and with the quantifier semantics. */
  lemma {:induction false} MatchIsTruth(lower: string -> string, w: Wrap, content: string)
    requires NoForeign(w)
    ensures DataExpressionMatch(lower, w, content) == Ok(Truth(lower, w, content))
    decreases w, 1
  {
    match w.expr
    case AllOf(ws) => MatchAllOfIsForall(lower, ws, content);
    case AnyOf(ws) => MatchAnyOfIsExists(lower, ws, content);
    case NotTrue(c) => MatchIsTruth(lower, c, content);
    case PredicateWrap(p) => ContainsIff(lower(content), lower(p.text));
    case _ =>
  }

  lemma {:induction false} MatchAllOfIsForall(lower: string -> string, ws: seq<Wrap>, content: string)
    requires forall i | 0 <= i < |ws| :: NoForeign(ws[i])
    ensures MatchAllOf(lower, ws, content) == Ok(forall i | 0 <= i < |ws| :: Truth(lower, ws[i], content))
    decreases ws, 0
  {
    if ws == [] {
    } else {
      MatchIsTruth(lower, ws[0], content);
      MatchAllOfIsForall(lower, ws[1..], content);
      assert forall i | 1 <= i < |ws| :: ws[i] == ws[1..][i - 1];
    }
  }

  lemma {:induction false} MatchAnyOfIsExists(lower: string -> string, ws: seq<Wrap>, content: string)
    requires forall i | 0 <= i < |ws| :: NoForeign(ws[i])
    ensures MatchAnyOf(lower, ws, content) == Ok(exists i | 0 <= i < |ws| :: Truth(lower, ws[i], content))
    decreases ws, 0
  {
    if ws == [] {
    } else {
      MatchIsTruth(lower, ws[0], content);
      MatchAnyOfIsExists(lower, ws[1..], content);
      assert forall i | 1 <= i < |ws| :: ws[i] == ws[1..][i - 1];
    }
  }

  function Not(w: Wrap): Wrap {
    Wrap("", NotTrue(w))
  }

  function All(ws: seq<Wrap>): Wrap {
    Wrap("", AllOf(ws))
  }

  function Any(ws: seq<Wrap>): Wrap {
    Wrap("", AnyOf(ws))
  }

  function Negations(ws: seq<Wrap>): (r: seq<Wrap>) {
    seq(|ws|, i requires 0 <= i < |ws| => Not(ws[i]))
  }

  /** De Morgan holds on a list exactly when the list is not empty: an empty allOf and an empty
      anyOf both match everything. */
  lemma {:induction false} DeMorgan(lower: string -> string, ws: seq<Wrap>, content: string)
    ensures Truth(lower, Not(All(ws)), content) == Truth(lower, Any(Negations(ws)), content) <==> ws != []
    ensures Truth(lower, Not(Any(ws)), content) == Truth(lower, All(Negations(ws)), content) <==> ws != []
  {
    var ns := Negations(ws);
    assert |ns| == |ws|;
    assert forall i | 0 <= i < |ws| :: Truth(lower, ns[i], content) == !Truth(lower, ws[i], content);
    if ws != [] {
      assert Truth(lower, All(ns), content) <==> forall i | 0 <= i < |ns| :: Truth(lower, ns[i], content);
      assert Truth(lower, Any(ns), content) <==> exists i | 0 <= i < |ns| :: Truth(lower, ns[i], content);
    }
  }

  // ---------- what a document means ----------

  function Text(fields: map<string, Json>, key: string): string {
    if key in fields && fields[key].Str? then fields[key].s else ""
  }

  function PredicateText(j: Json): string
    requires j.Obj?
  {
    if PARAM in j.fields && j.fields[PARAM].Obj? then Text(j.fields[PARAM].fields, TEXT) else ""
  }

  ghost predicate NotFalse(v: Option<bool>) {
    v != Some(false)
  }

  ghost predicate Absent(v: Option<bool>) {
    v == None
  }

  ghost predicate Holds(v: Option<bool>) {
    v == Some(true)
  }

  /** Direct reading of a document on one content: None is a placeholder, which is no operand. */
  ghost function Meaning(lower: string -> string, j: Json, content: string): Option<bool>
    decreases j, 1
  {
    if j.Obj? && EXPR in j.fields && j.fields[EXPR].Obj? then NodeMeaning(lower, j.fields[EXPR], content) else None
  }

  ghost function NodeMeaning(lower: string -> string, j: Json, content: string): Option<bool>
    requires j.Obj?
    decreases j, 0
  {
    var e := j.fields;
    if ALL_OF in e && e[ALL_OF].Arr? then
      var xs := e[ALL_OF].items;
      Some(forall i | 0 <= i < |xs| :: NotFalse(Meaning(lower, xs[i], content)))
    else if ANY_OF in e && e[ANY_OF].Arr? then
      var xs := e[ANY_OF].items;
      Some((forall i | 0 <= i < |xs| :: Absent(Meaning(lower, xs[i], content)))
           || exists i | 0 <= i < |xs| :: Holds(Meaning(lower, xs[i], content)))
    else if NOT_TRUE in e then
      var v := Meaning(lower, e[NOT_TRUE], content);
      if v.None? then None else Some(!v.value)
    else if PRED in e && e[PRED].Obj? then
      Some(Text(e[PRED].fields, TYPE) == "LITERAL" && Mentions(lower(content), lower(PredicateText(e[PRED]))))
    else None
  }

  ghost predicate DocumentHolds(lower: string -> string, j: Json, content: string) {
    NotFalse(Meaning(lower, j, content))
  }

  /** What one parsed child contributes. */
  ghost predicate Agrees(lower: string -> string, j: Json, w: Wrap, content: string) {
    && (w.IsEmpty() <==> Absent(Meaning(lower, j, content)))
    && (!w.IsEmpty() ==> Meaning(lower, j, content) == Some(Truth(lower, w, content)))
  }

  lemma {:induction false} ParsedAgrees(lower: string -> string, j: Json, content: string)
    requires Unmarshal(j).Ok?
    ensures Agrees(lower, j, Unmarshal(j).value, content)
    decreases j, 1
  {
    if j.Obj? && EXPR in j.fields {
      var e := j.fields[EXPR].fields;
      if ALL_OF in e {
        ParsedItemsAgree(lower, e[ALL_OF].items, content);
        ParsedListAgrees(lower, e[ALL_OF].items, content);
      } else if ANY_OF in e {
        ParsedItemsAgree(lower, e[ANY_OF].items, content);
        ParsedListAgrees(lower, e[ANY_OF].items, content);
      } else if NOT_TRUE in e {
        ParsedAgrees(lower, e[NOT_TRUE], content);
      }
    }
  }

  ghost function Meanings(lower: string -> string, items: seq<Json>, content: string): (r: seq<Option<bool>>)
    ensures |r| == |items| && forall i | 0 <= i < |items| :: r[i] == Meaning(lower, items[i], content)
  {
    if items == [] then [] else [Meaning(lower, items[0], content)] + Meanings(lower, items[1..], content)
  }

  ghost function Truths(lower: string -> string, ws: seq<Wrap>, content: string): (r: seq<bool>)
    ensures |r| == |ws| && forall i | 0 <= i < |ws| :: r[i] == Truth(lower, ws[i], content)
  {
    if ws == [] then [] else [Truth(lower, ws[0], content)] + Truths(lower, ws[1..], content)
  }

  ghost function Present(ms: seq<Option<bool>>): seq<bool> {
    if ms == [] then []
    else if ms[0].None? then Present(ms[1..])
    else [ms[0].value] + Present(ms[1..])
  }

  lemma {:induction false} PresentMembers(ms: seq<Option<bool>>)
    ensures forall v :: v in Present(ms) <==> Some(v) in ms
    ensures Present(ms) == [] <==> forall m | m in ms :: m.None?
  {
    if ms == [] {
    } else {
      PresentMembers(ms[1..]);
      assert ms == [ms[0]] + ms[1..];
    }
  }

  /** The parsed children have, in order, the values of the operands that are present. */
  lemma {:induction false} ParsedItemsAgree(lower: string -> string, items: seq<Json>, content: string)
    requires UnmarshalAll(items).Ok?
    ensures Truths(lower, UnmarshalAll(items).value, content) == Present(Meanings(lower, items, content))
    decreases items, 0
  {
    if items == [] {
    } else {
      ParsedAgrees(lower, items[0], content);
      ParsedItemsAgree(lower, items[1..], content);
      var ws := UnmarshalAll(items).value;
      if !Unmarshal(items[0]).value.IsEmpty() {
        assert ws[1..] == UnmarshalAll(items[1..]).value;
      }
    }
  }

  lemma {:induction false} ParsedListAgrees(lower: string -> string, items: seq<Json>, content: string)
    requires UnmarshalAll(items).Ok?
    requires Truths(lower, UnmarshalAll(items).value, content) == Present(Meanings(lower, items, content))
    ensures var ws := UnmarshalAll(items).value;
            && ((forall i | 0 <= i < |ws| :: Truth(lower, ws[i], content))
                <==> (forall i | 0 <= i < |items| :: NotFalse(Meaning(lower, items[i], content))))
            && ((exists i | 0 <= i < |ws| :: Truth(lower, ws[i], content))
                <==> (exists i | 0 <= i < |items| :: Holds(Meaning(lower, items[i], content))))
            && (ws == [] <==> (forall i | 0 <= i < |items| :: Absent(Meaning(lower, items[i], content))))
  {
    var ts := Truths(lower, UnmarshalAll(items).value, content);
    var ms := Meanings(lower, items, content);
    PresentMembers(ms);
    assert false in ts <==> Some(false) in ms;
    assert true in ts <==> Some(true) in ms;
  }

  lemma {:induction false} ClosedHasNoForeign(w: Wrap)
    requires Closed(w)
    ensures NoForeign(w)
  {
    match w.expr
    case AllOf(ws) => forall i | 0 <= i < |ws| ensures NoForeign(ws[i]) { ClosedHasNoForeign(ws[i]); }
    case AnyOf(ws) => forall i | 0 <= i < |ws| ensures NoForeign(ws[i]) { ClosedHasNoForeign(ws[i]); }
    case NotTrue(c) => ClosedHasNoForeign(c);
    case _ =>
  }

  /** Parsing preserves meaning: evaluating a parsed document never errors and gives its direct
      reading, in which an absent root is true. */
  lemma {:induction false} ParsingPreservesMeaning(lower: string -> string, j: Json, content: string)
    requires Unmarshal(j).Ok?
    ensures DataExpressionMatch(lower, Unmarshal(j).value, content) == Ok(DocumentHolds(lower, j, content))
  {
    var w := Unmarshal(j).value;
    ParsedAgrees(lower, j, content);
    ParsedIsClosed(j);
    if !w.IsEmpty() {
      ClosedHasNoForeign(w);
      MatchIsTruth(lower, w, content);
    }
  }

  // ---------- chains ----------

  function Contents(post: PostChain): seq<string> {
    [post.content] + if post.sharedFrom.Some? then Contents(post.sharedFrom.value) else []
  }

  ghost predicate SomePostHolds(lower: string -> string, j: Json, contents: seq<string>) {
    exists k | 0 <= k < |contents| :: DocumentHolds(lower, j, contents[k])
  }

  /** The chain matcher, for every filter text: a blank filter matches, broken text errs, a document
      the parser rejects fails the same way on every post, and an accepted one matches exactly when
      it holds of some single post along the sharing chain. */
  lemma {:induction false} ChainMatchesSomePost(lower: string -> string, text: FilterText, post: PostChain)
    ensures DataExpressionMatchPostChain(lower, text, post) ==
            match text
            case Blank => Ok(true)
            case Malformed => Error
            case Document(j) =>
              if WellFormed(j) then Ok(SomePostHolds(lower, j, Contents(post)))
              else if HasNil(j) then Panic else Error
    decreases post
  {
    if text.Document? {
      var j := text.json;
      AcceptsExactlyWellFormed(j);
      PanicsExactlyOnNil(j);
      if WellFormed(j) {
        ParsingPreservesMeaning(lower, j, post.content);
        var cs := Contents(post);
        assert cs[0] == post.content;
        if post.sharedFrom.Some? {
          ChainMatchesSomePost(lower, text, post.sharedFrom.value);
          var rest := Contents(post.sharedFrom.value);
          assert forall k | 1 <= k < |cs| :: cs[k] == rest[k - 1];
          assert forall k | 0 <= k < |rest| :: rest[k] == cs[k + 1];
        }
      }
    }
  }
}
