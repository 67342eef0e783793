/**
 * The header-override engine of index.js:116-146: for every rule key, in
 * order, set the header to the combined value or remove it. `ApplyAll` is
 * the engine as a function on header maps; `Response.ApplyHeaderOverrides`
 * is the in-place loop, proved to compute it.
 */
module Engine {
  import opened Wrappers
  import opened Strings
  import opened Rules

  /** A header map keyed the way Node keys it: by lower-cased name. */
  type Headers = map<string, string>

  /** Every name in the map is lower-case. */
  ghost predicate LowerKeys(h: Headers)
  {
    forall k :: k in h ==> IsLower(k)
  }

  /** `a` and `b` hold the same headers, with the same values, at every name outside `s`. */
  ghost predicate AgreeOutside(a: Headers, b: Headers, s: set<string>)
  {
    forall k :: k !in s ==> (k in a <==> k in b) && (k in a ==> a[k] == b[k])
  }

  /** One iteration of the `forEach`: `setHeader(key, combinedValue)` or `removeHeader(key)`. */
  function ApplyRule(h: Headers, hr: HeaderRule, req: Request): (r: Headers)
    ensures Lower(hr.name) in r <==> Resolve(hr.rule, req).Some?
    ensures Lower(hr.name) in r ==> r[Lower(hr.name)] == Resolve(hr.rule, req).value
    ensures AgreeOutside(h, r, {Lower(hr.name)})
  {
    match Resolve(hr.rule, req)
    case Some(v) => h[Lower(hr.name) := v]
    case None => h - {Lower(hr.name)}
  }

  /** The header names a rule set can touch: its keys, lower-cased. */
  function Touched(rs: RuleSet): (t: set<string>)
    ensures forall i :: 0 <= i < |rs| ==> Lower(rs[i].name) in t
  {
    if rs == [] then {}
    else
      var t0 := Touched(rs[..|rs| - 1]);
      assert forall i :: 0 <= i < |rs| - 1 ==> rs[..|rs| - 1][i] == rs[i];
      t0 + {Lower(rs[|rs| - 1].name)}
  }

  /** One more key adds exactly its lower-cased name to the touched names. */
  lemma TouchedSnoc(rs: RuleSet, hr: HeaderRule)
    ensures Touched(rs + [hr]) == Touched(rs) + {Lower(hr.name)}
  {
    assert (rs + [hr])[..|rs|] == rs;
  }

  /** A name that no key names, ignoring case, is not touched. */
  lemma {:induction false} UnnamedUntouched(rs: RuleSet, n: string)
    requires forall i :: 0 <= i < |rs| ==> Lower(rs[i].name) != n
    ensures n !in Touched(rs)
  {
    if rs != [] {
      var p := rs[..|rs| - 1];
      assert forall i :: 0 <= i < |p| ==> p[i] == rs[i];
      UnnamedUntouched(p, n);
    }
  }

  /**
   * The whole `forEach` over the keys in order. Headers whose names match no
   * key keep their presence and value, and a map keyed by lower-case names
   * stays so.
   */
  function ApplyAll(h: Headers, rs: RuleSet, req: Request): (r: Headers)
    ensures AgreeOutside(h, r, Touched(rs))
    ensures LowerKeys(h) ==> LowerKeys(r)
    decreases |rs|
  {
    if rs == [] then h
    else ApplyRule(ApplyAll(h, rs[..|rs| - 1], req), rs[|rs| - 1], req)
  }

  /**
   * The last key (in iteration order) that names header `n`, ignoring case,
   * decides it: the header is present exactly when that key's combined value
   * is non-empty, and then holds exactly that value, whatever it held before.
   */
  lemma {:induction false} LastRuleWins(h: Headers, rs: RuleSet, req: Request, i: nat)
    requires i < |rs|
    requires forall j :: i < j < |rs| ==> Lower(rs[j].name) != Lower(rs[i].name)
    ensures var n := Lower(rs[i].name);
            && (n in ApplyAll(h, rs, req) <==> Resolve(rs[i].rule, req).Some?)
            && (n in ApplyAll(h, rs, req) ==> ApplyAll(h, rs, req)[n] == Resolve(rs[i].rule, req).value)
  {
    if i < |rs| - 1 {
      var p := rs[..|rs| - 1];
      assert forall j :: 0 <= j < |p| ==> p[j] == rs[j];
      LastRuleWins(h, p, req, i);
    }
  }

  /** A header whose name matches no key, ignoring case, keeps its presence and its value. */
  lemma UnmatchedHeaderUnchanged(h: Headers, rs: RuleSet, req: Request, n: string)
    requires forall i :: 0 <= i < |rs| ==> Lower(rs[i].name) != n
    ensures n in ApplyAll(h, rs, req) <==> n in h
    ensures n in h ==> ApplyAll(h, rs, req)[n] == h[n]
  {
    UnnamedUntouched(rs, n);
  }

  /** Applying the same rules to two maps keeps them agreeing outside `s`, and makes them agree on every touched name. */
  lemma {:induction false} AgreementGrows(h1: Headers, h2: Headers, rs: RuleSet, req: Request, s: set<string>)
    requires AgreeOutside(h1, h2, s)
    ensures AgreeOutside(ApplyAll(h1, rs, req), ApplyAll(h2, rs, req), s - Touched(rs))
  {
    if rs != [] {
      var p := rs[..|rs| - 1];
      AgreementGrows(h1, h2, p, req, s);
      assert Touched(rs) == Touched(p) + {Lower(rs[|rs| - 1].name)};
    }
  }

  /** The result depends on the old map only at names that no key touches. */
  lemma OnlyUntouchedMatter(h1: Headers, h2: Headers, rs: RuleSet, req: Request)
    requires AgreeOutside(h1, h2, Touched(rs))
    ensures ApplyAll(h1, rs, req) == ApplyAll(h2, rs, req)
  {
    AgreementGrows(h1, h2, rs, req, Touched(rs));
    assert Touched(rs) - Touched(rs) == {};
  }

  /** Applying the overrides twice for the same request gives the map that applying them once gives. */
  lemma Idempotent(h: Headers, rs: RuleSet, req: Request)
    ensures ApplyAll(ApplyAll(h, rs, req), rs, req) == ApplyAll(h, rs, req)
  {
    var once := ApplyAll(h, rs, req);
    assert forall k :: k !in Touched(rs) ==> (k in h <==> k in once) && (k in h ==> h[k] == once[k]);
    OnlyUntouchedMatter(once, h, rs, req);
  }

  /** Rules applied one list after another act as the concatenated list. */
  lemma {:induction false} ApplyAllAppend(h: Headers, a: RuleSet, b: RuleSet, req: Request)
    ensures ApplyAll(h, a + b, req) == ApplyAll(ApplyAll(h, a, req), b, req)
  {
    if b == [] {
      assert a + b == a;
    } else {
      var b' := b[..|b| - 1];
      ApplyAllAppend(h, a, b', req);
      UnfoldAppend(h, a, b, req);
    }
  }

  /** One unfolding of `ApplyAll` on a concatenation whose right part is not empty. */
  lemma UnfoldAppend(h: Headers, a: RuleSet, b: RuleSet, req: Request)
    requires b != []
    ensures ApplyAll(h, a + b, req) == ApplyRule(ApplyAll(h, a + b[..|b| - 1], req), b[|b| - 1], req)
  {
    var ab := a + b;
    assert ab[..|ab| - 1] == a + b[..|b| - 1];
    assert ab[|ab| - 1] == b[|b| - 1];
    UnfoldLast(h, ab, req);
  }

  /** `ApplyAll` on a non-empty rule list applies its last rule to the result of the others. */
  lemma UnfoldLast(h: Headers, rs: RuleSet, req: Request)
    requires rs != []
    ensures ApplyAll(h, rs, req) == ApplyRule(ApplyAll(h, rs[..|rs| - 1], req), rs[|rs| - 1], req)
  {
  }

  /**
   * The Express response object, reduced to what the engine and the
   * preflight answer touch: status code, header map and the body once sent.
   */
  class Response {
    var statusCode: int
    var headers: Headers
    var body: Option<string>

    ghost predicate Valid()
      reads this
    {
      LowerKeys(headers)
    }

    /** A response that already holds `initial` headers (Express sets some before any middleware runs). */
    constructor (initial: Headers)
      requires LowerKeys(initial)
      ensures Valid()
      ensures headers == initial && statusCode == 200 && body == None
    {
      statusCode := 200;
      headers := initial;
      body := None;
    }

    /** `res.setHeader(name, value)`: names are matched without regard to case. */
    method SetHeader(name: string, value: string)
      requires Valid()
      modifies this
      ensures Valid()
      ensures headers == old(headers)[Lower(name) := value]
      ensures statusCode == old(statusCode) && body == old(body)
    {
      headers := headers[Lower(name) := value];
    }

    /** `res.removeHeader(name)`: a missing header is no error. */
    method RemoveHeader(name: string)
      requires Valid()
      modifies this
      ensures Valid()
      ensures headers == old(headers) - {Lower(name)}
      ensures statusCode == old(statusCode) && body == old(body)
    {
      headers := headers - {Lower(name)};
    }

    /** `res.status(code)`. */
    method Status(code: int)
      modifies this
      ensures statusCode == code
      ensures headers == old(headers) && body == old(body)
    {
      statusCode := code;
    }

    /**
     * `res.send(content)`, reduced to storing the body. The headers Express's
     * `send` adds or rewrites (`Content-Type`, `Content-Length`, `ETag`) are
     * not modelled.
     */
    method Send(content: string)
      modifies this
      ensures body == Some(content)
      ensures headers == old(headers) && statusCode == old(statusCode)
    {
      body := Some(content);
    }

    /** `res.applyHeaderOverrides()`: the `forEach` over the rule keys, in order. */
    method ApplyHeaderOverrides(rules: RuleSet, req: Request)
      requires Valid()
      modifies this
      ensures Valid()
      ensures headers == ApplyAll(old(headers), rules, req)
      ensures statusCode == old(statusCode) && body == old(body)
    {
      for i := 0 to |rules|
        invariant Valid()
        invariant headers == ApplyAll(old(headers), rules[..i], req)
        invariant statusCode == old(statusCode) && body == old(body)
      {
        assert rules[..i + 1][..i] == rules[..i];
        var key := rules[i].name;
        var combinedValue := Combined(rules[i].rule, req);
        if combinedValue != "" {
          SetHeader(key, combinedValue);
        } else {
          RemoveHeader(key);
        }
      }
      assert rules[..|rules|] == rules;
    }
  }
}
