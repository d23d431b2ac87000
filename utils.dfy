/** pydst/utils.py: the language check, the subject-tree flattener and the
    HTTP response guard. */
module Utils {
  import opened Py
  import Strings

  // ---------------------------------------------------------------------
  // check_lang
  // ---------------------------------------------------------------------

  /** The languages Statistics Denmark serves. */
  const Languages: seq<string> := ["da", "en"]

  const LangError := "lang is not specified correct. See the docs."

  /** `check_lang(lang)`: hands back `lang` when it is one of the two served
      languages and raises ValueError for every other value, strings and
      non-strings alike. */
  function CheckLang(lang: Value): (r: Result<string>)
    ensures r.Ok? <==> lang.Str? && lang.s in Languages
    ensures r.Ok? ==> lang == Str(r.value)
    ensures r.Err? ==> r.error == ValueError(LangError)
  {
    if lang !in [Str("da"), Str("en")] then Err(ValueError(LangError))
    else Ok(lang.s)
  }

  // ---------------------------------------------------------------------
  // desc_to_df / json_to_df_dict
  // ---------------------------------------------------------------------

  /** A subject as the subjects endpoint returns it. */
  datatype Node = Node(id: string, description: string, active: bool, hasSubjects: bool, subjects: seq<Node>)

  /** One row of the subjects frame. */
  datatype Record = Record(id: string, desc: string, active: bool, hasSubjects: bool)

  /** The row emitted for a node: `description` becomes `desc`, the rest is copied. */
  function ToRecord(n: Node): (r: Record)
    ensures r.id == n.id && r.desc == n.description
    ensures r.active == n.active && r.hasSubjects == n.hasSubjects
  {
    Record(n.id, n.description, n.active, n.hasSubjects)
  }

  /** A node whose `subjects` list is empty (falsy). */
  predicate IsLeaf(n: Node)
  {
    n.subjects == []
  }

  /** What `json_to_df_dict` returns: each leaf gives its row, each other node
      is replaced by the flattening of its children, left to right. */
  function Flatten(nodes: seq<Node>): seq<Record>
    decreases nodes
  {
    if nodes == [] then [] else Emit(nodes[0]) + Flatten(nodes[1..])
  }

  /** What one node contributes to the output. */
  function Emit(n: Node): seq<Record>
    decreases n
  {
    if IsLeaf(n) then [ToRecord(n)] else Flatten(n.subjects)
  }

  /** `json_to_df_dict(list_)`: a loop appending a row for every leaf and
      extending with the recursive result for every other node. */
  method JsonToDfDict(list: seq<Node>) returns (res: seq<Record>)
    decreases list
    ensures res == Flatten(list)
  {
    res := [];
    for k := 0 to |list|
      invariant res == Flatten(list[..k])
    {
      var i := list[k];
      if i.subjects == [] {
        res := res + [Record(i.id, i.description, i.active, i.hasSubjects)];
      } else {
        var children := JsonToDfDict(i.subjects);
        res := res + children;
      }
      FlattenAppend(list[..k], [i]);
      assert list[..k + 1] == list[..k] + [i];
    }
    assert list[..|list|] == list;
  }

  /** Flattening distributes over concatenation of node lists. */
  lemma {:induction false} FlattenAppend(a: seq<Node>, b: seq<Node>)
    ensures Flatten(a + b) == Flatten(a) + Flatten(b)
    decreases a
  {
    if a == [] {
      assert a + b == b;
    } else {
      FlattenAppend(a[1..], b);
      var ab := a + b;
      assert ab != [] && ab[0] == a[0];
      assert ab[1..] == a[1..] + b;
      Strings.AppendAssoc(Emit(a[0]), Flatten(a[1..]), Flatten(b));
    }
  }

  /** A node with children never appears itself: its place in the output is
      taken by the flattening of its children. */
  lemma FlattenReplacesParent(before: seq<Node>, n: Node, after: seq<Node>)
    requires !IsLeaf(n)
    ensures Flatten(before + [n] + after) == Flatten(before) + Flatten(n.subjects) + Flatten(after)
  {
    FlattenAppend(before + [n], after);
    FlattenAppend(before, [n]);
  }

  /** Every node of the forest in pre-order: a node, then its descendants,
      then its later siblings. */
  ghost function Preorder(nodes: seq<Node>): seq<Node>
    decreases nodes
  {
    if nodes == [] then []
    else [nodes[0]] + Preorder(nodes[0].subjects) + Preorder(nodes[1..])
  }

  /** The leaves of a node sequence, in order. */
  ghost function Leaves(s: seq<Node>): seq<Node>
  {
    if s == [] then [] else (if IsLeaf(s[0]) then [s[0]] else []) + Leaves(s[1..])
  }

  /** The rows of a node sequence, one per node, in order. */
  ghost function Rows(s: seq<Node>): seq<Record>
  {
    if s == [] then [] else [ToRecord(s[0])] + Rows(s[1..])
  }

  /** Rows are one per node, each that node's row. */
  lemma {:induction false} RowsAt(s: seq<Node>)
    ensures |Rows(s)| == |s|
    ensures forall k :: 0 <= k < |s| ==> Rows(s)[k] == ToRecord(s[k])
  {
    if s != [] {
      RowsAt(s[1..]);
    }
  }

  lemma {:induction false} LeavesAppend(a: seq<Node>, b: seq<Node>)
    ensures Leaves(a + b) == Leaves(a) + Leaves(b)
  {
    if a == [] {
      assert a + b == b;
    } else {
      LeavesAppend(a[1..], b);
      var ab := a + b;
      assert ab != [] && ab[0] == a[0];
      assert ab[1..] == a[1..] + b;
      Strings.AppendAssoc(if IsLeaf(a[0]) then [a[0]] else [], Leaves(a[1..]), Leaves(b));
    }
  }

  lemma {:induction false} RowsAppend(a: seq<Node>, b: seq<Node>)
    ensures Rows(a + b) == Rows(a) + Rows(b)
  {
    if a == [] {
      assert a + b == b;
    } else {
      RowsAppend(a[1..], b);
      var ab := a + b;
      assert ab != [] && ab[0] == a[0];
      assert ab[1..] == a[1..] + b;
      Strings.AppendAssoc([ToRecord(a[0])], Rows(a[1..]), Rows(b));
    }
  }

  /** The leaf rows of a forest: those of its first node, of that node's
      descendants, then of the later siblings. */
  lemma LeafRowsCons(nodes: seq<Node>)
    requires nodes != []
    ensures Rows(Leaves(Preorder(nodes)))
         == Rows(Leaves([nodes[0]])) + Rows(Leaves(Preorder(nodes[0].subjects))) + Rows(Leaves(Preorder(nodes[1..])))
  {
    var n, rest := nodes[0], nodes[1..];
    assert Preorder(nodes) == [n] + Preorder(n.subjects) + Preorder(rest);
    LeavesAppend([n] + Preorder(n.subjects), Preorder(rest));
    LeavesAppend([n], Preorder(n.subjects));
    RowsAppend(Leaves([n]) + Leaves(Preorder(n.subjects)), Leaves(Preorder(rest)));
    RowsAppend(Leaves([n]), Leaves(Preorder(n.subjects)));
  }

  /** A leaf contributes its own row and nothing below it. */
  lemma LeafEmit(n: Node)
    requires IsLeaf(n)
    ensures Emit(n) == Rows(Leaves([n])) + Rows(Leaves(Preorder(n.subjects)))
  {
    assert Leaves([n]) == [n];
    assert Rows([n]) == [ToRecord(n)];
    assert Preorder(n.subjects) == [];
  }

  /** A parent contributes nothing itself, only the leaf rows below it. */
  lemma ParentEmit(n: Node)
    requires !IsLeaf(n)
    requires Flatten(n.subjects) == Rows(Leaves(Preorder(n.subjects)))
    ensures Emit(n) == Rows(Leaves([n])) + Rows(Leaves(Preorder(n.subjects)))
  {
    assert Leaves([n]) == [];
    assert Rows([]) == [];
  }

  /** The flattener emits exactly the rows of the leaves of the forest, in
      pre-order. */
  lemma {:induction false} FlattenIsLeafRows(nodes: seq<Node>)
    ensures Flatten(nodes) == Rows(Leaves(Preorder(nodes)))
    decreases nodes
  {
    if nodes != [] {
      var n := nodes[0];
      FlattenIsLeafRows(n.subjects);
      FlattenIsLeafRows(nodes[1..]);
      LeafRowsCons(nodes);
      if IsLeaf(n) {
        LeafEmit(n);
      } else {
        ParentEmit(n);
      }
    }
  }

  lemma {:induction false} LeavesAreLeaves(s: seq<Node>)
    ensures forall m :: m in Leaves(s) <==> m in s && IsLeaf(m)
  {
    if s != [] {
      LeavesAreLeaves(s[1..]);
      assert s == [s[0]] + s[1..];
    }
  }

  /** Every row comes from a leaf of the forest, and every leaf gives a row. */
  lemma FlattenRowsAreLeaves(nodes: seq<Node>)
    ensures forall r :: r in Flatten(nodes) ==> exists m :: m in Preorder(nodes) && IsLeaf(m) && r == ToRecord(m)
    ensures forall m :: m in Preorder(nodes) && IsLeaf(m) ==> ToRecord(m) in Flatten(nodes)
  {
    FlattenIsLeafRows(nodes);
    RowsAt(Leaves(Preorder(nodes)));
    LeavesAreLeaves(Preorder(nodes));
    var ls := Leaves(Preorder(nodes));
    forall r | r in Flatten(nodes)
      ensures exists m :: m in Preorder(nodes) && IsLeaf(m) && r == ToRecord(m)
    {
      var k :| 0 <= k < |ls| && Flatten(nodes)[k] == r;
      assert ls[k] in ls;
    }
    forall m | m in Preorder(nodes) && IsLeaf(m)
      ensures ToRecord(m) in Flatten(nodes)
    {
      var k :| 0 <= k < |ls| && ls[k] == m;
      assert Flatten(nodes)[k] == ToRecord(m);
    }
  }

  /** The output has one row per leaf of the forest. */
  lemma FlattenLength(nodes: seq<Node>)
    ensures |Flatten(nodes)| == |Leaves(Preorder(nodes))|
  {
    FlattenIsLeafRows(nodes);
    RowsAt(Leaves(Preorder(nodes)));
  }

  /** On flat input every node gives its own row, in the same order. */
  lemma {:induction false} FlattenFlat(nodes: seq<Node>)
    requires forall k :: 0 <= k < |nodes| ==> IsLeaf(nodes[k])
    ensures Flatten(nodes) == Rows(nodes)
  {
    if nodes != [] {
      FlattenFlat(nodes[1..]);
    }
  }

  /** Two top-level subjects, a leaf and a parent of two leaves, give three rows. */
  lemma ThreeRowExample()
    ensures
      var leaf := Node("02", "Population", true, false, []);
      var a := Node("0501", "Income", true, false, []);
      var b := Node("0502", "Housing", true, false, []);
      var parent := Node("05", "Living conditions", true, true, [a, b]);
      Flatten([leaf, parent]) == [ToRecord(leaf), ToRecord(a), ToRecord(b)]
  {
    var leaf := Node("02", "Population", true, false, []);
    var a := Node("0501", "Income", true, false, []);
    var b := Node("0502", "Housing", true, false, []);
    var parent := Node("05", "Living conditions", true, true, [a, b]);
    FlattenAppend([leaf], [parent]);
    FlattenAppend([a], [b]);
    assert [a, b] == [a] + [b];
    assert [leaf, parent] == [leaf] + [parent];
  }

  // ---------------------------------------------------------------------
  // bad_request_wrapper
  // ---------------------------------------------------------------------

  /** What `r.json()` decodes a response body into. */
  datatype Body =
    | NotJson
    | JsonObject(fields: map<string, Value>)
    | JsonList(nodes: seq<Node>)
    | JsonOther

  /** `fields.get(key, None)`. */
  function Get(fields: map<string, Value>, key: string): Value
  {
    if key in fields then fields[key] else NoneValue
  }

  /** `Response.ok` in requests: false exactly for 4xx and 5xx statuses. */
  predicate IsOk(status: int)
  {
    !(400 <= status < 600)
  }

  /** The body carries Statistics Denmark's own error report. */
  predicate HasServerMessage(body: Body)
  {
    body.JsonObject? && Truthy(Get(body.fields, "errorTypeCode")) && Truthy(Get(body.fields, "message"))
  }

  /** Whether the guard lets the response through or what it raises. */
  datatype Verdict = Pass | Raise(error: Error)

  /** `r.raise_for_status()`. */
  function RaiseForStatus(status: int, reason: Value): (v: Verdict)
    ensures v.Pass? <==> IsOk(status)
    ensures v.Raise? ==> v.error == HttpError(status, reason)
  {
    if IsOk(status) then Pass else Raise(HttpError(status, reason))
  }

  /** The response's `reason` once the guard has run. */
  function ReasonAfter(status: int, body: Body, reason: Value): (r: Value)
    ensures !IsOk(status) && HasServerMessage(body) ==> r == body.fields["message"]
    ensures r != reason ==> !IsOk(status) && HasServerMessage(body) && r == body.fields["message"]
  {
    if !IsOk(status) && HasServerMessage(body) then body.fields["message"] else reason
  }

  /** What the guard does with a response of this status, body and reason. */
  function GuardVerdict(status: int, body: Body, reason: Value): (v: Verdict)
    ensures v.Pass? <==> IsOk(status)
    ensures v.Raise? && v.error.HttpError? ==> body.JsonObject? && v.error.status == status
    ensures v.Raise? && body.NotJson? ==> v.error == JsonDecodeError
  {
    if IsOk(status) then Pass
    else
      match body
      case NotJson => Raise(JsonDecodeError)
      case JsonObject(_) => RaiseForStatus(status, ReasonAfter(status, body, reason))
      case _ => Raise(AttributeError)
  }

  /** The part of a `requests` response the guard reads and writes. */
  class Response {
    const status: int
    const body: Body
    var reason: Value

    constructor (status: int, body: Body, reason: Value)
      ensures this.status == status && this.body == body && this.reason == reason
    {
      this.status := status;
      this.body := body;
      this.reason := reason;
    }

    predicate Ok()
    {
      IsOk(status)
    }
  }

  /** `bad_request_wrapper(r)`: on a failed response, substitutes the server's
      message for the reason when the body reports an error, then raises. */
  method BadRequestWrapper(r: Response) returns (v: Verdict)
    modifies r
    ensures r.reason == ReasonAfter(r.status, r.body, old(r.reason))
    ensures v == GuardVerdict(r.status, r.body, old(r.reason))
  {
    v := Pass;
    if !r.Ok() {
      match r.body {
        case NotJson =>
          v := Raise(JsonDecodeError);
        case JsonObject(fields) =>
          if Truthy(Get(fields, "errorTypeCode")) && Truthy(Get(fields, "message")) {
            r.reason := fields["message"];
          }
          v := RaiseForStatus(r.status, r.reason);
        case _ =>
          v := Raise(AttributeError);
      }
    }
  }

  /** A successful response goes through untouched. */
  lemma GuardPassesOk(status: int, body: Body, reason: Value)
    requires IsOk(status)
    ensures GuardVerdict(status, body, reason) == Pass
    ensures ReasonAfter(status, body, reason) == reason
  {
  }

  /** A failed response always raises. */
  lemma GuardRaisesOnFailure(status: int, body: Body, reason: Value)
    requires !IsOk(status)
    ensures GuardVerdict(status, body, reason).Raise?
  {
  }

  /** With both `errorTypeCode` and `message` truthy, the error carries the message. */
  lemma GuardUsesServerMessage(status: int, fields: map<string, Value>, reason: Value)
    requires !IsOk(status)
    requires Truthy(Get(fields, "errorTypeCode")) && Truthy(Get(fields, "message"))
    ensures GuardVerdict(status, JsonObject(fields), reason) == Raise(HttpError(status, fields["message"]))
  {
  }

  /** Otherwise the error carries the transport's reason unchanged. */
  lemma GuardKeepsReason(status: int, fields: map<string, Value>, reason: Value)
    requires !IsOk(status)
    requires !(Truthy(Get(fields, "errorTypeCode")) && Truthy(Get(fields, "message")))
    ensures GuardVerdict(status, JsonObject(fields), reason) == Raise(HttpError(status, reason))
    ensures ReasonAfter(status, JsonObject(fields), reason) == reason
  {
  }

  /** An `errorTypeCode` of 0 is falsy, so the server's message is ignored. */
  lemma GuardIgnoresZeroErrorCode(status: int, message: string, reason: Value)
    requires !IsOk(status)
    ensures GuardVerdict(status, JsonObject(map["errorTypeCode" := Int(0), "message" := Str(message)]), reason)
         == Raise(HttpError(status, reason))
  {
  }

  /** A quota report replaces the reason by its message. */
  lemma GuardQuotaExample(reason: Value)
    ensures GuardVerdict(429, JsonObject(map["errorTypeCode" := Int(1), "message" := Str("Quota exceeded")]), reason)
         == Raise(HttpError(429, Str("Quota exceeded")))
  {
  }
}
