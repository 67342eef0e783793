/**
 * The shipped default rules (index.js:52-58) and the rules of the example
 * configuration (example-config.js:5-24), with what the engine makes of them.
 */
module Examples {
  import opened Wrappers
  import opened Strings
  import opened Rules
  import opened Engine

  /** `function (req) { return req.headers['access-control-request-headers']; }` */
  function EchoRequestedHeaders(req: Request): (v: JsValue)
    ensures v.Undefined? <==> "access-control-request-headers" !in req.headers
    ensures "access-control-request-headers" in req.headers ==> v == Text(req.headers["access-control-request-headers"])
  {
    RequestHeader(req, "access-control-request-headers")
  }

  /** `function (req) { return req.method; }` */
  function EchoMethod(req: Request): (v: JsValue)
    ensures v.Text? && Print(v) == req.httpMethod
  {
    Text(req.httpMethod)
  }

  /** `defaultConfig.headers`, in declaration order: three keys naming three headers. */
  function DefaultRules(): (rs: RuleSet)
    ensures |rs| == 3
    ensures Touched(rs) == {"access-control-allow-origin", "access-control-allow-headers", "x-powered-by"}
  {
    var origin := HeaderRule("Access-Control-Allow-Origin", Single(Lit(Text("*"))));
    var allow := HeaderRule("Access-Control-Allow-Headers", Single(Computed(EchoRequestedHeaders)));
    var powered := HeaderRule("X-Powered-By", Single(Lit(Text("cors-backdoor"))));
    LowerAllowOrigin();
    LowerAllowHeaders();
    LowerPoweredBy();
    TouchedSnoc([], origin);
    assert [] + [origin] == [origin];
    TouchedSnoc([origin], allow);
    assert [origin] + [allow] == [origin, allow];
    TouchedSnoc([origin, allow], powered);
    assert [origin, allow] + [powered] == [origin, allow, powered];
    [origin, allow, powered]
  }

  /**
   * The `headers` keys of the default configuration merged with the example
   * configuration: keys already present keep their place and take the
   * example's value; new keys follow in the example's order, and the new
   * key 'x-powered-by' is kept with the value `undefined`. Its six keys
   * name five headers, because two keys differ only in case.
   */
  function MergedExampleRules(): (rs: RuleSet)
    ensures |rs| == 6
    ensures Touched(rs) == {"access-control-allow-origin", "access-control-allow-headers", "x-powered-by",
                            "access-control-expose-headers", "x-custom-req-method"}
  {
    var origin := HeaderRule("Access-Control-Allow-Origin", Single(Lit(Text("*"))));
    var allow := HeaderRule("Access-Control-Allow-Headers", Many([Lit(Text("Content-Type")), Computed(EchoRequestedHeaders)]));
    var powered := HeaderRule("X-Powered-By", Single(Lit(Text("cors-backdoor"))));
    var expose := HeaderRule("Access-Control-Expose-Headers", Single(Lit(Text("x-custom-exposed-header"))));
    var reqMethod := HeaderRule("X-Custom-Req-Method", Single(Computed(EchoMethod)));
    var unpowered := HeaderRule("x-powered-by", Single(Lit(Undefined)));
    LowerAllowOrigin();
    LowerAllowHeaders();
    LowerPoweredBy();
    LowerExposeHeaders();
    LowerReqMethod();
    LowerLowerPoweredBy();
    TouchedSnoc([], origin);
    assert [] + [origin] == [origin];
    TouchedSnoc([origin], allow);
    assert [origin] + [allow] == [origin, allow];
    TouchedSnoc([origin, allow], powered);
    assert [origin, allow] + [powered] == [origin, allow, powered];
    TouchedSnoc([origin, allow, powered], expose);
    assert [origin, allow, powered] + [expose] == [origin, allow, powered, expose];
    TouchedSnoc([origin, allow, powered, expose], reqMethod);
    assert [origin, allow, powered, expose] + [reqMethod] == [origin, allow, powered, expose, reqMethod];
    TouchedSnoc([origin, allow, powered, expose, reqMethod], unpowered);
    assert [origin, allow, powered, expose, reqMethod] + [unpowered] == [origin, allow, powered, expose, reqMethod, unpowered];
    [origin, allow, powered, expose, reqMethod, unpowered]
  }

  // The names the rules above touch, as Node keys them.

  lemma LowerAllowOrigin()
    ensures Lower("Access-Control-Allow-Origin") == "access-control-allow-origin"
  {
  }

  lemma LowerAllowHeaders()
    ensures Lower("Access-Control-Allow-Headers") == "access-control-allow-headers"
  {
  }

  lemma LowerPoweredBy()
    ensures Lower("X-Powered-By") == "x-powered-by"
  {
  }

  lemma LowerExposeHeaders()
    ensures Lower("Access-Control-Expose-Headers") == "access-control-expose-headers"
  {
  }

  lemma LowerReqMethod()
    ensures Lower("X-Custom-Req-Method") == "x-custom-req-method"
  {
  }

  lemma LowerLowerPoweredBy()
    ensures Lower("x-powered-by") == "x-powered-by"
  {
  }

  /** A plain string rule resolves to that string when it is not empty. */
  lemma LiteralResolves(s: string, req: Request)
    requires s != ""
    ensures Resolve(Single(Lit(Text(s))), req) == Some(s)
  {
    SingleIsOneElementList(Lit(Text(s)), req);
  }

  /** The header map the default overrides leave always holds `Access-Control-Allow-Origin: *`. */
  lemma DefaultAllowsAnyOrigin(h: Headers, req: Request)
    ensures var r := ApplyAll(h, DefaultRules(), req);
            "access-control-allow-origin" in r && r["access-control-allow-origin"] == "*"
  {
    LowerAllowOrigin();
    LowerAllowHeaders();
    LowerPoweredBy();
    LiteralResolves("*", req);
    LastRuleWins(h, DefaultRules(), req, 0);
  }

  /**
   * The header map the default overrides leave holds `X-Powered-By:
   * cors-backdoor`, replacing whatever value it held before (such as
   * Express's own).
   */
  lemma DefaultPoweredBy(h: Headers, req: Request)
    ensures var r := ApplyAll(h, DefaultRules(), req);
            "x-powered-by" in r && r["x-powered-by"] == "cors-backdoor"
  {
    LowerPoweredBy();
    LiteralResolves("cors-backdoor", req);
    LastRuleWins(h, DefaultRules(), req, 2);
  }

  /**
   * In the header map the default overrides leave, `Access-Control-Allow-Headers`
   * echoes exactly the headers the request asked for, and is absent when the
   * request asked for none.
   */
  lemma DefaultEchoesRequestedHeaders(h: Headers, req: Request)
    ensures var r := ApplyAll(h, DefaultRules(), req);
            && ("access-control-allow-headers" in r <==>
                  "access-control-request-headers" in req.headers && req.headers["access-control-request-headers"] != "")
            && ("access-control-allow-headers" in r ==>
                  r["access-control-allow-headers"] == req.headers["access-control-request-headers"])
  {
    LowerAllowHeaders();
    LowerPoweredBy();
    SingleIsOneElementList(Computed(EchoRequestedHeaders), req);
    LastRuleWins(h, DefaultRules(), req, 1);
  }

  /**
   * With the example configuration `X-Powered-By` is removed, even though
   * the defaults set it: the example's 'x-powered-by' key names the same
   * header and comes later.
   */
  lemma ExampleRemovesPoweredBy(h: Headers, req: Request)
    ensures "x-powered-by" !in ApplyAll(h, MergedExampleRules(), req)
  {
    LowerLowerPoweredBy();
    SingleIsOneElementList(Lit(Undefined), req);
    LastRuleWins(h, MergedExampleRules(), req, 5);
  }

  /** The example's allowed-headers list: `Content-Type`, then the requested headers when the request names any. */
  lemma ExampleAllowHeadersValue(req: Request)
    ensures Resolve(MergedExampleRules()[1].rule, req) ==
              Some(if "access-control-request-headers" in req.headers
                   then "Content-Type," + req.headers["access-control-request-headers"]
                   else "Content-Type")
  {
    var rule := MergedExampleRules()[1].rule;
    var es := [Lit(Text("Content-Type")), Computed(EchoRequestedHeaders)];
    assert Values(rule) == es;
    PartsPerEntry(es, req);
    PartsPerEntry(es[1..], req);
    assert es[1..][1..] == [];
    if "access-control-request-headers" in req.headers {
      var v := req.headers["access-control-request-headers"];
      assert Parts(es, req) == ["Content-Type", v];
      assert Combined(rule, req) == "Content-Type" + "," + v;
      assert "Content-Type" + "," + v == "Content-Type," + v;
      assert |Combined(rule, req)| > 0;
    } else {
      assert Parts(es, req) == ["Content-Type"];
    }
  }

  /** With the example configuration the allowed headers are `Content-Type`, then whatever the request asked for. */
  lemma ExampleAllowHeaders(h: Headers, req: Request)
    ensures var r := ApplyAll(h, MergedExampleRules(), req);
            && "access-control-allow-headers" in r
            && r["access-control-allow-headers"] ==
                 if "access-control-request-headers" in req.headers
                 then "Content-Type," + req.headers["access-control-request-headers"]
                 else "Content-Type"
  {
    LowerAllowHeaders();
    LowerPoweredBy();
    LowerExposeHeaders();
    LowerReqMethod();
    LowerLowerPoweredBy();
    ExampleAllowHeadersValue(req);
    LastRuleWins(h, MergedExampleRules(), req, 1);
  }

  /** With the example configuration `X-Custom-Req-Method` echoes the request method. */
  lemma ExampleEchoesMethod(h: Headers, req: Request)
    requires req.httpMethod != ""
    ensures var r := ApplyAll(h, MergedExampleRules(), req);
            "x-custom-req-method" in r && r["x-custom-req-method"] == req.httpMethod
  {
    LowerReqMethod();
    LowerLowerPoweredBy();
    SingleIsOneElementList(Computed(EchoMethod), req);
    LastRuleWins(h, MergedExampleRules(), req, 4);
  }

  // Combined values of a few rule lists.

  /** Only `undefined` is dropped: an empty string stays, so two commas meet. */
  lemma EmptyStringEntryKept(req: Request)
    ensures Resolve(Many([Lit(Text("a")), Lit(Text("")), Lit(Text("b"))]), req) == Some("a,,b")
  {
    var es := [Lit(Text("a")), Lit(Text("")), Lit(Text("b"))];
    PartsPerEntry(es, req);
    PartsPerEntry(es[1..], req);
    PartsPerEntry(es[2..], req);
    assert es[2..][1..] == [];
    assert Parts(es, req) == ["a", "", "b"];
    assert JoinComma(["a", "", "b"]) == "a" + "," + ("" + "," + "b");
    assert Combined(Many(es), req) == "a,,b";
  }

  /** A function entry that returns `undefined` leaves no trace. */
  lemma UndefinedEntryDropped(req: Request)
    ensures Resolve(Many([Lit(Text("a")), Computed((r: Request) => Undefined), Lit(Text("b"))]), req) == Some("a,b")
  {
    var es := [Lit(Text("a")), Computed((r: Request) => Undefined), Lit(Text("b"))];
    PartsPerEntry(es, req);
    PartsPerEntry(es[1..], req);
    PartsPerEntry(es[2..], req);
    assert es[2..][1..] == [];
    assert Parts(es, req) == ["a", "b"];
    assert JoinComma(["a", "b"]) == "a" + "," + "b";
    assert Combined(Many(es), req) == "a,b";
  }

  /** `null` prints as the empty string: alone it removes the header, twice it sets it to a lone comma. */
  lemma NullEntries(req: Request)
    ensures Resolve(Many([Lit(Null)]), req) == None
    ensures Resolve(Many([Lit(Null), Lit(Null)]), req) == Some(",")
  {
    var one, two := [Lit(Null)], [Lit(Null), Lit(Null)];
    PartsPerEntry(one, req);
    assert one[1..] == [];
    assert Combined(Many(one), req) == "";
    PartsPerEntry(two, req);
    PartsPerEntry(two[1..], req);
    assert two[1..][1..] == [];
    assert Parts(two, req) == ["", ""];
    assert JoinComma(["", ""]) == "" + "," + "";
    assert Combined(Many(two), req) == ",";
  }
}
