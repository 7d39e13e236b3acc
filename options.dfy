/** Parsing of the resolver's target URL (`consul://host/service?…`) into the
    service name and the query options (options.go). */
module Options {
  import opened Base
  import opened Strings

  /** The health policy (`healthFilter`); `Undefined` is Go's zero value. */
  datatype HealthFilter = Undefined | OnlyHealthy | FallbackToUnhealthy

  /** The policy used when the target names none. */
  const DefaultHealthFilter: HealthFilter := OnlyHealthy

  /** Why a target was refused; each carries the text Go puts in its message. */
  datatype ParseError =
    | MissingServiceName
    | UnsupportedScheme(value: string)
    | UnsupportedHealth(value: string)
    | UnsupportedParameter(key: string)

  /** `url.Values`: each query key with the values given for it, in order. */
  type QueryValues = map<string, seq<string>>

  /** What `extractOpts` returns besides its error. */
  datatype QueryOpts = QueryOpts(scheme: string, tags: Slice<string>, health: HealthFilter, token: string)

  /** The zero values Go returns beside an error. */
  const NoOpts: QueryOpts := QueryOpts("", Nil, Undefined, "")

  /** What `parseEndpoint` returns besides its error. */
  datatype Endpoint = Endpoint(serviceName: string, opts: QueryOpts)

  const NoEndpoint: Endpoint := Endpoint("", NoOpts)

  // ---------------------------------------------------------------------
  // How one key is read
  // ---------------------------------------------------------------------

  /** A key takes part when it has at least one value. */
  ghost predicate Live(q: QueryValues, k: string) {
    k in q && |q[k]| > 0
  }

  /** The value that counts for a key: its last one. */
  function LastValue(values: seq<string>): string
    requires |values| > 0
  {
    values[|values| - 1]
  }

  /** The policy a `health` value names, or `Undefined` for any other text. */
  function HealthOf(value: string): HealthFilter {
    var v := Lower(value);
    if v == "healthy" then OnlyHealthy
    else if v == "fallbacktounhealthy" then FallbackToUnhealthy
    else Undefined
  }

  /** The tag list a `tags` value gives. */
  function TagsOf(value: string): Slice<string> {
    NonNil(Split(value, ','))
  }

  /** The error, if any, that a key with the given last value causes. */
  function CheckKey(key: string, value: string): Option<ParseError> {
    var k := Lower(key);
    if k == "scheme" then
      var s := Lower(value);
      if s == "http" || s == "https" then None else Some(UnsupportedScheme(value))
    else if k == "health" then
      if HealthOf(value) == Undefined then Some(UnsupportedHealth(value)) else None
    else if k == "tags" || k == "token" then None
    else Some(UnsupportedParameter(key))
  }

  /** No key that takes part is refused. */
  ghost predicate QueryValid(q: QueryValues) {
    forall k :: Live(q, k) ==> CheckKey(k, LastValue(q[k])).None?
  }

  // ---------------------------------------------------------------------
  // What the options are, whatever the order in which keys are visited
  // ---------------------------------------------------------------------

  /** `k`, among the visited keys `V`, sets the option called `name`. */
  ghost predicate SetsKey(q: QueryValues, V: set<string>, name: string, k: string) {
    k in V && Live(q, k) && Lower(k) == name
  }

  /** The option `name` has value `x`: decoded from the last value of some
      visited key that sets it, or `absent` when no visited key does. */
  ghost predicate FieldFrom<X>(q: QueryValues, V: set<string>, name: string, x: X, absent: X, decode: string -> X) {
    if exists k :: SetsKey(q, V, name, k)
    then exists k :: SetsKey(q, V, name, k) && x == decode(LastValue(q[k]))
    else x == absent
  }

  /** The options `o` are read from the visited keys `V`; a missing `health`
      gives `absentHealth`. */
  ghost predicate OptsFrom(q: QueryValues, V: set<string>, o: QueryOpts, absentHealth: HealthFilter) {
    && FieldFrom(q, V, "scheme", o.scheme, "", Lower)
    && FieldFrom(q, V, "tags", o.tags, Nil, TagsOf)
    && FieldFrom(q, V, "health", o.health, absentHealth, HealthOf)
    && FieldFrom(q, V, "token", o.token, "", (v: string) => v)
  }

  /** The options after one more (accepted) key has been read. */
  ghost function Absorb(o: QueryOpts, key: string, value: string): QueryOpts {
    var k := Lower(key);
    if k == "scheme" then o.(scheme := Lower(value))
    else if k == "tags" then o.(tags := TagsOf(value))
    else if k == "health" then o.(health := HealthOf(value))
    else if k == "token" then o.(token := value)
    else o
  }

  lemma FieldFromOther<X>(q: QueryValues, V: set<string>, name: string, x: X, absent: X, decode: string -> X, key: string)
    requires FieldFrom(q, V, name, x, absent, decode)
    requires !(Live(q, key) && Lower(key) == name)
    ensures FieldFrom(q, V + {key}, name, x, absent, decode)
  {
    forall k ensures SetsKey(q, V + {key}, name, k) == SetsKey(q, V, name, k) {
    }
  }

  lemma FieldFromSet<X>(q: QueryValues, V: set<string>, name: string, absent: X, decode: string -> X, key: string)
    requires Live(q, key) && Lower(key) == name
    ensures FieldFrom(q, V + {key}, name, decode(LastValue(q[key])), absent, decode)
  {
    assert SetsKey(q, V + {key}, name, key);
  }

  /** Visiting one more key keeps the options in step with the visited keys. */
  lemma OptsFromStep(q: QueryValues, V: set<string>, o: QueryOpts, h: HealthFilter, key: string)
    requires OptsFrom(q, V, o, h)
    ensures OptsFrom(q, V + {key}, if Live(q, key) then Absorb(o, key, LastValue(q[key])) else o, h)
  {
    var o' := if Live(q, key) then Absorb(o, key, LastValue(q[key])) else o;
    var k := Lower(key);
    if Live(q, key) && k == "scheme" {
      FieldFromSet(q, V, "scheme", "", Lower, key);
    } else {
      FieldFromOther(q, V, "scheme", o.scheme, "", Lower, key);
    }
    if Live(q, key) && k == "tags" {
      FieldFromSet(q, V, "tags", Nil, TagsOf, key);
    } else {
      FieldFromOther(q, V, "tags", o.tags, Nil, TagsOf, key);
    }
    if Live(q, key) && k == "health" {
      FieldFromSet(q, V, "health", h, HealthOf, key);
    } else {
      FieldFromOther(q, V, "health", o.health, h, HealthOf, key);
    }
    if Live(q, key) && k == "token" {
      FieldFromSet(q, V, "token", "", (v: string) => v, key);
    } else {
      FieldFromOther(q, V, "token", o.token, "", (v: string) => v, key);
    }
  }

  /** No key visited yet: every option has its absent value. */
  lemma OptsFromNothing(q: QueryValues, h: HealthFilter)
    ensures OptsFrom(q, {}, QueryOpts("", Nil, h, ""), h)
  {
  }

  // ---------------------------------------------------------------------
  // extractOpts and parseEndpoint
  // ---------------------------------------------------------------------

  /** The `switch` of `extractOpts` on one key and its last value: a
      refused key gives its error and the zero options; an accepted one
      updates the option it names. */
  method ReadKey(o: QueryOpts, key: string, value: string) returns (o': QueryOpts, err: Option<ParseError>)
    ensures err == CheckKey(key, value)
    ensures err.Some? ==> o' == NoOpts
    ensures err.None? ==> o' == Absorb(o, key, value)
  {
    var scheme, tags, health, token := o.scheme, o.tags, o.health, o.token;
    var k := Lower(key);
    if k == "scheme" {
      scheme := Lower(value);
      if scheme != "http" && scheme != "https" {
        return NoOpts, Some(UnsupportedScheme(value));
      }
    } else if k == "tags" {
      tags := NonNil(Split(value, ','));
    } else if k == "health" {
      var h := Lower(value);
      if h == "healthy" {
        health := OnlyHealthy;
      } else if h == "fallbacktounhealthy" {
        health := FallbackToUnhealthy;
      } else {
        return NoOpts, Some(UnsupportedHealth(value));
      }
    } else if k == "token" {
      token := value;
    } else {
      return NoOpts, Some(UnsupportedParameter(key));
    }
    return QueryOpts(scheme, tags, health, token), None;
  }

  /** One pass of the loop of `extractOpts`: a key without values is skipped;
      otherwise its last value is read. The visited keys then include `key`. */
  method VisitKey(q: QueryValues, ghost visited: set<string>, o: QueryOpts, key: string)
    returns (o': QueryOpts, err: Option<ParseError>)
    requires key in q && OptsFrom(q, visited, o, Undefined)
    ensures err == (if Live(q, key) then CheckKey(key, LastValue(q[key])) else None)
    ensures err.Some? ==> o' == NoOpts
    ensures err.None? ==> OptsFrom(q, visited + {key}, o', Undefined)
  {
    OptsFromStep(q, visited, o, Undefined, key);
    var values := q[key];
    if |values| == 0 {
      return o, None;
    }
    var value := values[|values| - 1];
    assert value == LastValue(q[key]);
    o', err := ReadKey(o, key, value);
  }

  /** `extractOpts`: visits the keys in an unspecified order, reads the last
      value of each key that has one, and stops at the first refused key. It
      fails exactly when some key that takes part is refused, whatever the
      order, and then returns the zero options; otherwise every option is the
      decoded last value of a key that names it, or its zero value. */
  method ExtractOpts(q: QueryValues) returns (o: QueryOpts, err: Option<ParseError>)
    ensures err.None? <==> QueryValid(q)
    ensures err.Some? ==> o == NoOpts
    ensures err.Some? ==> exists k :: Live(q, k) && CheckKey(k, LastValue(q[k])) == err
    ensures err.None? ==> OptsFrom(q, q.Keys, o, Undefined)
  {
    o := QueryOpts("", Nil, Undefined, "");
    var todo := q.Keys;
    ghost var visited: set<string> := {};
    OptsFromNothing(q, Undefined);
    while todo != {}
      invariant visited + todo == q.Keys
      invariant forall k :: k in visited && Live(q, k) ==> CheckKey(k, LastValue(q[k])).None?
      invariant OptsFrom(q, visited, o, Undefined)
      decreases todo
    {
      var key :| key in todo;
      o, err := VisitKey(q, visited, o, key);
      if err.Some? {
        return;
      }
      visited := visited + {key};
      todo := todo - {key};
    }
    return o, None;
  }

  /** With every key accepted, a missing `health` read as `Undefined` and then
      replaced by the default is the same as reading it with the default. */
  lemma DefaultHealth(q: QueryValues, o: QueryOpts)
    requires QueryValid(q)
    requires OptsFrom(q, q.Keys, o, Undefined)
    ensures o.health == Undefined ==> OptsFrom(q, q.Keys, o.(health := DefaultHealthFilter), DefaultHealthFilter)
    ensures o.health != Undefined ==> OptsFrom(q, q.Keys, o, DefaultHealthFilter)
  {
    if exists k :: SetsKey(q, q.Keys, "health", k) {
      var k :| SetsKey(q, q.Keys, "health", k) && o.health == HealthOf(LastValue(q[k]));
      assert CheckKey(k, LastValue(q[k])).None?;
    }
  }

  /** `parseEndpoint`: the service name is the URL path with one leading "/"
      removed and must not be empty; the query must be accepted; a missing
      health policy becomes the default. On an error every result is zero. */
  method ParseEndpoint(path: string, q: QueryValues) returns (ep: Endpoint, err: Option<ParseError>)
    ensures err == Some(MissingServiceName) <==> TrimPrefix(path, "/") == ""
    ensures err.None? <==> TrimPrefix(path, "/") != "" && QueryValid(q)
    ensures err.Some? ==> ep == NoEndpoint
    ensures err.Some? && err != Some(MissingServiceName) ==>
      exists k :: Live(q, k) && CheckKey(k, LastValue(q[k])) == err
    ensures err.None? ==> ep.serviceName != "" && (path == "/" + ep.serviceName || (path == ep.serviceName && path[0] != '/'))
    ensures err.None? ==> ep.opts.health != Undefined && OptsFrom(q, q.Keys, ep.opts, DefaultHealthFilter)
  {
    var serviceName := TrimPrefix(path, "/");
    if serviceName == "" {
      return NoEndpoint, Some(MissingServiceName);
    }
    var opts;
    opts, err := ExtractOpts(q);
    if err.Some? {
      return NoEndpoint, err;
    }
    DefaultHealth(q, opts);
    if opts.health == Undefined {
      opts := opts.(health := DefaultHealthFilter);
    }
    return Endpoint(serviceName, opts), None;
  }
}

/** Properties of the options a query gives. */
module OptionsFacts {
  import opened Base
  import opened Strings
  import opened Options

  /** No two keys that take part differ only in letter case. */
  ghost predicate NoCaseCollisions(q: QueryValues) {
    forall k1, k2 :: Live(q, k1) && Live(q, k2) && Lower(k1) == Lower(k2) ==> k1 == k2
  }

  lemma FieldFromUnique<X>(q: QueryValues, name: string, x1: X, x2: X, absent: X, decode: string -> X)
    requires NoCaseCollisions(q)
    requires FieldFrom(q, q.Keys, name, x1, absent, decode)
    requires FieldFrom(q, q.Keys, name, x2, absent, decode)
    ensures x1 == x2
  {
    if exists k :: SetsKey(q, q.Keys, name, k) {
      var k1 :| SetsKey(q, q.Keys, name, k1) && x1 == decode(LastValue(q[k1]));
      var k2 :| SetsKey(q, q.Keys, name, k2) && x2 == decode(LastValue(q[k2]));
      assert k1 == k2;
    }
  }

  /** When no two keys differ only in case, the options do not depend on the
      order in which the keys are visited: at most one result is possible. */
  lemma {:induction false} OptsFromUnique(q: QueryValues, o1: QueryOpts, o2: QueryOpts, h: HealthFilter)
    requires NoCaseCollisions(q)
    requires OptsFrom(q, q.Keys, o1, h) && OptsFrom(q, q.Keys, o2, h)
    ensures o1 == o2
  {
    FieldFromUnique(q, "scheme", o1.scheme, o2.scheme, "", Lower);
    FieldFromUnique(q, "tags", o1.tags, o2.tags, Nil, TagsOf);
    FieldFromUnique(q, "health", o1.health, o2.health, h, HealthOf);
    FieldFromUnique(q, "token", o1.token, o2.token, "", (v: string) => v);
  }

  /** Two keys that differ only in case, both naming `scheme`: either one's
      value is a possible outcome, so the result depends on map order. */
  lemma CaseVariantKeysAmbiguous()
    ensures var q: QueryValues := map["scheme" := ["http"], "SCHEME" := ["https"]];
      && QueryValid(q)
      && OptsFrom(q, q.Keys, QueryOpts("http", Nil, Undefined, ""), Undefined)
      && OptsFrom(q, q.Keys, QueryOpts("https", Nil, Undefined, ""), Undefined)
  {
    var q: QueryValues := map["scheme" := ["http"], "SCHEME" := ["https"]];
    assert Lower("SCHEME") == "scheme";
    assert Lower("scheme") == "scheme";
    assert Lower("http") == "http";
    assert Lower("https") == "https";
    assert q.Keys == {"scheme", "SCHEME"};
    forall k | Live(q, k) ensures CheckKey(k, LastValue(q[k])).None? {
      assert k == "scheme" || k == "SCHEME";
    }
    assert SetsKey(q, q.Keys, "scheme", "scheme");
    assert SetsKey(q, q.Keys, "scheme", "SCHEME");
    forall k ensures !SetsKey(q, q.Keys, "tags", k) && !SetsKey(q, q.Keys, "health", k) && !SetsKey(q, q.Keys, "token", k) {
    }
  }

  /** Only the last value of each key matters, and keys without values are
      as good as absent: two queries that agree on those give the same
      verdict and the same options. */
  lemma {:induction false} LastValuesDecide(q1: QueryValues, q2: QueryValues, o: QueryOpts, h: HealthFilter)
    requires forall k :: Live(q1, k) <==> Live(q2, k)
    requires forall k :: Live(q1, k) && Live(q2, k) ==> LastValue(q1[k]) == LastValue(q2[k])
    ensures QueryValid(q1) <==> QueryValid(q2)
    ensures OptsFrom(q1, q1.Keys, o, h) <==> OptsFrom(q2, q2.Keys, o, h)
  {
    forall name, k ensures SetsKey(q1, q1.Keys, name, k) <==> SetsKey(q2, q2.Keys, name, k) {
    }
    SameField(q1, q2, "scheme", o.scheme, "", Lower);
    SameField(q1, q2, "tags", o.tags, Nil, TagsOf);
    SameField(q1, q2, "health", o.health, h, HealthOf);
    SameField(q1, q2, "token", o.token, "", (v: string) => v);
  }

  lemma SameField<X>(q1: QueryValues, q2: QueryValues, name: string, x: X, absent: X, decode: string -> X)
    requires forall k :: Live(q1, k) <==> Live(q2, k)
    requires forall k :: Live(q1, k) && Live(q2, k) ==> LastValue(q1[k]) == LastValue(q2[k])
    ensures FieldFrom(q1, q1.Keys, name, x, absent, decode) <==> FieldFrom(q2, q2.Keys, name, x, absent, decode)
  {
    forall k ensures SetsKey(q1, q1.Keys, name, k) <==> SetsKey(q2, q2.Keys, name, k) {
    }
  }

  /** An empty `tags` value gives one empty tag, not an empty list. */
  lemma TagsOfEmpty()
    ensures TagsOf("") == NonNil([""])
  {
  }

  /** A `tags` value made by joining comma-free tags gives back those tags. */
  lemma TagsOfJoin(tags: seq<string>)
    requires |tags| >= 1 && forall i :: 0 <= i < |tags| ==> ',' !in tags[i]
    ensures TagsOf(Join(tags, ',')) == NonNil(tags)
  {
    SplitJoin(tags, ',');
  }

  /** Joining the tags a value gives restores the value. */
  lemma JoinTagsOf(value: string)
    ensures Join(TagsOf(value).items, ',') == value
  {
    JoinSplit(value, ',');
  }

  /** A successful parse never leaves the health policy undefined, and the
      values `healthy` and `fallbacktounhealthy` are read in any letter case. */
  lemma HealthValues(value: string)
    ensures Lower(value) == "healthy" <==> HealthOf(value) == OnlyHealthy
    ensures Lower(value) == "fallbacktounhealthy" <==> HealthOf(value) == FallbackToUnhealthy
    ensures HealthOf(value) == Undefined <==> CheckKey("health", value).Some?
  {
    assert Lower("health") == "health";
  }
}
