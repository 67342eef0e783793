/**
 * Header rules and the per-key value computation of `applyHeaderOverrides`
 * (index.js:121-138): normalise the rule value to a list, call function
 * entries, drop `undefined`, join with `,`, and decide set-or-remove.
 */
module Rules {
  import opened Wrappers
  import opened Strings

  /** What a rule function may look at: the incoming request (header names lower-cased, as Node delivers them). */
  datatype Request = Request(httpMethod: string, url: string, headers: map<string, string>)

  /**
   * A JavaScript value as far as the override engine can tell values apart:
   * `undefined` (filtered out), `null` (printed as the empty string by `join`)
   * and every other value, held as the string JavaScript converts it to.
   */
  datatype JsValue = Undefined | Null | Text(s: string)

  /** One element of a rule value: a plain value, or a function called with the request. */
  datatype Entry = Lit(value: JsValue) | Computed(fn: Request -> JsValue)

  /** A rule value: anything that is not an array, or an array of entries. */
  datatype Rule = Single(entry: Entry) | Many(entries: seq<Entry>)

  /** One key of `config.headers` with its rule. */
  datatype HeaderRule = HeaderRule(name: string, rule: Rule)

  /** The keys of `config.headers` in `Object.keys` order, each with its rule. */
  type RuleSet = seq<HeaderRule>

  /** `undefined` when the request carries no such header, else its value. */
  function RequestHeader(req: Request, name: string): (v: JsValue)
    ensures v.Undefined? <==> name !in req.headers
    ensures name in req.headers ==> v == Text(req.headers[name])
  {
    if name in req.headers then Text(req.headers[name]) else Undefined
  }

  // ---------------------------------------------------------------------
  // The computation as the source writes it: map, filter, join.
  // ---------------------------------------------------------------------

  /** `Array.isArray(v) ? v : [v]`. */
  function Values(rule: Rule): (es: seq<Entry>)
    ensures rule.Many? ==> es == rule.entries
    ensures rule.Single? ==> |es| == 1 && es[0] == rule.entry
  {
    match rule
    case Single(e) => [e]
    case Many(es) => es
  }

  /** `typeof v === 'function' ? v(req) : v`. */
  function Call(e: Entry, req: Request): (v: JsValue)
    ensures e.Lit? ==> v == e.value
    ensures e.Computed? ==> v == e.fn(req)
  {
    match e
    case Lit(v) => v
    case Computed(f) => f(req)
  }

  /** `values.map(...)`: each entry replaced by its value, in order. */
  function Evaluate(es: seq<Entry>, req: Request): (vs: seq<JsValue>)
    ensures |vs| == |es|
    ensures forall i :: 0 <= i < |es| ==> vs[i] == Call(es[i], req)
  {
    if es == [] then [] else [Call(es[0], req)] + Evaluate(es[1..], req)
  }

  /** `.filter(v => v !== undefined)`. */
  function DropUndefined(vs: seq<JsValue>): (r: seq<JsValue>)
    ensures Undefined !in r
  {
    if vs == [] then []
    else if vs[0] == Undefined then DropUndefined(vs[1..])
    else [vs[0]] + DropUndefined(vs[1..])
  }

  /** The filter drops every `undefined` and keeps every other value as often as it occurs. */
  lemma {:induction false} DropUndefinedKeepsOthers(vs: seq<JsValue>)
    ensures multiset(DropUndefined(vs)) == multiset(vs)[Undefined := 0]
  {
    if vs != [] {
      DropUndefinedKeepsOthers(vs[1..]);
      assert vs == [vs[0]] + vs[1..];
    }
  }

  /** The filter keeps the relative order: it distributes over concatenation. */
  lemma {:induction false} DropUndefinedAppend(a: seq<JsValue>, b: seq<JsValue>)
    ensures DropUndefined(a + b) == DropUndefined(a) + DropUndefined(b)
  {
    if a == [] {
      assert a + b == b;
    } else {
      assert (a + b)[0] == a[0];
      assert (a + b)[1..] == a[1..] + b;
      DropUndefinedAppend(a[1..], b);
    }
  }

  /** How `join` prints one element: `null` and `undefined` as the empty string. */
  function Print(v: JsValue): (s: string)
    ensures s == "" <==> v in {Undefined, Null, Text("")}
    ensures v.Text? ==> s == v.s
  {
    match v
    case Undefined => ""
    case Null => ""
    case Text(s) => s
  }

  /** Each value as `join` prints it, in order. */
  function PrintAll(vs: seq<JsValue>): (r: seq<string>)
    ensures |r| == |vs|
    ensures forall i :: 0 <= i < |vs| ==> r[i] == Print(vs[i])
  {
    if vs == [] then [] else [Print(vs[0])] + PrintAll(vs[1..])
  }

  /** `.join(',')` over JavaScript values. */
  function JoinValues(vs: seq<JsValue>): (r: string)
    ensures |vs| == 1 ==> r == Print(vs[0])
    ensures r == "" <==> |vs| == 0 || (|vs| == 1 && Print(vs[0]) == "")
  {
    JoinEmptyIff(PrintAll(vs));
    JoinComma(PrintAll(vs))
  }

  /**
   * `combinedValue` of index.js:125-131. The map/filter/join pipeline prints
   * exactly the reference parts, joined by commas.
   */
  function Combined(rule: Rule, req: Request): (r: string)
    ensures r == JoinComma(Parts(Values(rule), req))
  {
    PrintedDropped(Values(rule), req);
    JoinValues(DropUndefined(Evaluate(Values(rule), req)))
  }

  /**
   * The header value to set, or `None` when `combinedValue` is falsy (the
   * empty string) and the header is removed: exactly when no part is left,
   * or the only part left is empty.
   */
  function Resolve(rule: Rule, req: Request): (r: Option<string>)
    ensures r.Some? ==> r.value != ""
    ensures r.None? <==> Parts(Values(rule), req) in {[], [""]}
    ensures r.Some? ==> r.value == JoinComma(Parts(Values(rule), req))
  {
    JoinEmptyIff(Parts(Values(rule), req));
    var c := Combined(rule, req);
    if c != "" then Some(c) else None
  }

  // ---------------------------------------------------------------------
  // Reference definition: the printed parts, in one pass over the entries.
  // ---------------------------------------------------------------------

  /** The strings that end up between the commas: one per entry whose value is not `undefined`, in entry order. */
  function Parts(es: seq<Entry>, req: Request): seq<string>
  {
    if es == [] then []
    else
      match Call(es[0], req)
      case Undefined => Parts(es[1..], req)
      case Null => [""] + Parts(es[1..], req)
      case Text(s) => [s] + Parts(es[1..], req)
  }

  /** The parts contributed by a single entry. */
  function EntryParts(e: Entry, req: Request): seq<string>
  {
    match Call(e, req)
    case Undefined => []
    case Null => [""]
    case Text(s) => [s]
  }

  lemma {:induction false} PrintedDropped(es: seq<Entry>, req: Request)
    ensures PrintAll(DropUndefined(Evaluate(es, req))) == Parts(es, req)
  {
    if es != [] {
      PrintedDropped(es[1..], req);
      var vs := Evaluate(es, req);
      assert vs == [Call(es[0], req)] + Evaluate(es[1..], req);
      assert vs[1..] == Evaluate(es[1..], req);
      if vs[0] != Undefined {
        assert DropUndefined(vs) == [vs[0]] + DropUndefined(vs[1..]);
        assert PrintAll(DropUndefined(vs)) == [Print(vs[0])] + PrintAll(DropUndefined(vs[1..]));
      }
    }
  }

  /** List order is kept: the parts of a concatenation are the concatenated parts. */
  lemma {:induction false} PartsAppend(a: seq<Entry>, b: seq<Entry>, req: Request)
    ensures Parts(a + b, req) == Parts(a, req) + Parts(b, req)
  {
    if a == [] {
      assert a + b == b;
    } else {
      assert (a + b)[0] == a[0];
      assert (a + b)[1..] == a[1..] + b;
      PartsAppend(a[1..], b, req);
    }
  }

  /** A list's parts are its entries' parts, entry by entry. */
  lemma {:induction false} PartsPerEntry(es: seq<Entry>, req: Request)
    ensures es != [] ==> Parts(es, req) == EntryParts(es[0], req) + Parts(es[1..], req)
    ensures |Parts(es, req)| <= |es|
  {
    if es != [] {
      PartsPerEntry(es[1..], req);
    }
  }

  /** A value that is not an array behaves as the one-element list holding it. */
  lemma SingleIsOneElementList(e: Entry, req: Request)
    ensures Combined(Single(e), req) == Combined(Many([e]), req)
    ensures Combined(Single(e), req) == JoinComma(EntryParts(e, req))
  {
    PartsPerEntry([e], req);
    assert [e][1..] == [];
  }

  /**
   * Round trip: when the parts hold no comma, splitting the header value at
   * commas gives back the parts, in list order.
   */
  lemma SetValueSplitsIntoParts(rule: Rule, req: Request)
    requires Resolve(rule, req).Some?
    requires forall i :: 0 <= i < |Parts(Values(rule), req)| ==> ',' !in Parts(Values(rule), req)[i]
    ensures SplitComma(Resolve(rule, req).value) == Parts(Values(rule), req)
  {
    SplitJoin(Parts(Values(rule), req));
  }
}
