/** The thermostat client of TStat.py: reads a named value through the
    registry, serving it from a short-lived cache keyed by URL when a fresh
    entry exists and otherwise trying the getters' URLs in order; writes a
    named value by trying the setters' URLs in order.

    The HTTP connection is a transport function given to each call, the clock
    is an integer `now` (seconds), and every call returns the URLs it
    requested, in order. */
module Client {
  import opened Values
  import opened Registry

  /** A cached document: the whole body last retrieved from `location`, and
      when it was retrieved. */
  datatype CacheEntry = CacheEntry(location: string, data: Json, time: int)

  type Cache = map<string, CacheEntry>

  /** The device's answer to a GET: the HTTP status and the decoded body,
      None when the body is not valid JSON. */
  datatype GetResponse = GetResponse(status: int, document: Option<Json>)

  /** The body of a POST: `{field: value}` as JSON, or form-encoded. */
  datatype Body = JsonBody(field: string, value: Json) | FormBody(field: string, value: Json)

  /** The device's answer to a POST: the HTTP status and the body text. */
  datatype PostResponse = PostResponse(status: int, text: string)

  type GetTransport = string -> GetResponse
  type PostTransport = (string, Body) -> PostResponse

  // ---------------------------------------------------------------------
  // Reading: the cache scan

  function Age(e: CacheEntry, now: int): int
  {
    now - e.time
  }

  /** A cache entry for `location` exists and is younger than the expiry. */
  predicate Fresh(cache: Cache, location: string, now: int, ttl: int)
  {
    location in cache && Age(cache[location], now) < ttl
  }

  /** The getter the cache scan of `_get` has settled on after visiting
      `gs` in order: a fresh one replaces the current choice when none is
      chosen yet or when it is strictly younger. */
  function Newest(gs: seq<Endpoint>, cache: Cache, now: int, ttl: int): (r: Option<nat>)
    ensures r.Some? ==> r.value < |gs| && Fresh(cache, gs[r.value].location, now, ttl)
    decreases |gs|
  {
    if gs == [] then None
    else
      var n := |gs| - 1;
      var prev := Newest(gs[..n], cache, now, ttl);
      if !Fresh(cache, gs[n].location, now, ttl) then prev
      else if prev.None? then Some(n)
      else if Age(cache[gs[n].location], now) < Age(cache[gs[prev.value].location], now) then Some(n)
      else prev
  }

  /** What the scan picks: the getter with the youngest fresh entry, and of
      several equally young ones the first declared. */
  ghost predicate IsFreshest(gs: seq<Endpoint>, cache: Cache, now: int, ttl: int, r: Option<nat>)
  {
    match r
    case None => forall j :: 0 <= j < |gs| ==> !Fresh(cache, gs[j].location, now, ttl)
    case Some(k) =>
      && k < |gs|
      && Fresh(cache, gs[k].location, now, ttl)
      && (forall j :: 0 <= j < |gs| && Fresh(cache, gs[j].location, now, ttl) ==>
            Age(cache[gs[k].location], now) <= Age(cache[gs[j].location], now))
      && (forall j :: 0 <= j < k && Fresh(cache, gs[j].location, now, ttl) ==>
            Age(cache[gs[k].location], now) < Age(cache[gs[j].location], now))
  }

  lemma {:induction false} NewestIsFreshest(gs: seq<Endpoint>, cache: Cache, now: int, ttl: int)
    ensures IsFreshest(gs, cache, now, ttl, Newest(gs, cache, now, ttl))
    decreases |gs|
  {
    if gs != [] {
      var n := |gs| - 1;
      NewestIsFreshest(gs[..n], cache, now, ttl);
      assert forall j :: 0 <= j < n ==> gs[..n][j] == gs[j];
    }
  }

  // ---------------------------------------------------------------------
  // Reading: the network fallback

  /** The location answered 200 with a body that decodes. */
  predicate Answers(t: GetTransport, location: string)
  {
    t(location).status == 200 && t(location).document.Some?
  }

  /** The URLs of `gs`, in order. */
  function Locations(gs: seq<Endpoint>): (r: seq<string>)
    ensures |r| == |gs|
    ensures forall j :: 0 <= j < |gs| ==> r[j] == gs[j].location
    decreases |gs|
  {
    if gs == [] then [] else Locations(gs[..|gs| - 1]) + [gs[|gs| - 1].location]
  }

  /** The getters tried before the loop stops: all of them up to the first
      that answers, or all of them. */
  function FirstAnswering(gs: seq<Endpoint>, t: GetTransport): Option<nat>
  {
    FirstWhere(gs, (g: Endpoint) => Answers(t, g.location))
  }

  // ---------------------------------------------------------------------
  // Reading: the field path and the value map

  /** Python's `s.split(sep)`. */
  function Split(s: string, sep: char): (parts: seq<string>)
    ensures |parts| > 0
    ensures forall i :: 0 <= i < |parts| ==> sep !in parts[i]
    decreases |s|
  {
    if s == [] then [[]]
    else
      var rest := Split(s[1..], sep);
      if s[0] == sep then [[]] + rest
      else [[s[0]] + rest[0]] + rest[1..]
  }

  /** `sep.join(parts)`, the inverse of Split. */
  function Join(parts: seq<string>, sep: char): string
    requires |parts| > 0
    decreases |parts|
  {
    if |parts| == 1 then parts[0] else parts[0] + [sep] + Join(parts[1..], sep)
  }

  lemma {:induction false} JoinSplit(s: string, sep: char)
    ensures Join(Split(s, sep), sep) == s
    decreases |s|
  {
    if s != [] {
      JoinSplit(s[1..], sep);
      var rest := Split(s[1..], sep);
      if s[0] != sep {
        if |rest| == 1 {
        } else {
          assert ([s[0]] + rest[0]) + [sep] + Join(rest[1..], sep) == [s[0]] + (rest[0] + [sep] + Join(rest[1..], sep));
        }
      }
    }
  }

  /** The loop `for key in path.split("/"): response = response[key]` with
      every failure swallowed: it steps into each key the current object has
      and stays put on any other. */
  function Descend(v: Json, keys: seq<string>): Json
    decreases |keys|
  {
    if keys == [] then v
    else if v.JObj? && keys[0] in v.fields then Descend(v.fields[keys[0]], keys[1..])
    else Descend(v, keys[1..])
  }

  function Walk(v: Json, path: string): Json
  {
    Descend(v, Split(path, '/'))
  }

  /** A value that is not an object stays what it is, whatever the path. */
  lemma {:induction false} DescendLeavesNonObjects(v: Json, keys: seq<string>)
    requires !v.JObj?
    ensures Descend(v, keys) == v
    decreases |keys|
  {
    if keys != [] {
      DescendLeavesNonObjects(v, keys[1..]);
    }
  }

  /** A slash path reaches a nested field; a missing segment is skipped. */
  lemma WalkNested(inner: map<string, Json>, outer: map<string, Json>, a: string, b: string)
    requires '/' !in a && '/' !in b && a != [] && b != []
    requires a in outer && outer[a] == JObj(inner)
    ensures b in inner ==> Walk(JObj(outer), a + "/" + b) == inner[b]
    ensures b !in inner ==> Walk(JObj(outer), a + "/" + b) == JObj(inner)
  {
    SplitTwo(a, b);
    assert Walk(JObj(outer), a + "/" + b) == Descend(JObj(outer), [a, b]);
    assert [a, b][1..] == [b];
    assert Descend(JObj(outer), [a, b]) == Descend(JObj(inner), [b]);
    assert [b][1..] == [];
  }

  /** A path without a slash reads one field, or stays put when it is
      missing. */
  lemma WalkField(fields: map<string, Json>, a: string)
    requires '/' !in a
    ensures a in fields ==> Walk(JObj(fields), a) == fields[a]
    ensures a !in fields ==> Walk(JObj(fields), a) == JObj(fields)
  {
    SplitOne(a);
    assert Walk(JObj(fields), a) == Descend(JObj(fields), [a]);
    assert [a][1..] == [];
  }

  lemma {:induction false} SplitOne(a: string)
    requires '/' !in a
    ensures Split(a, '/') == [a]
    decreases |a|
  {
    if a != [] {
      SplitOne(a[1..]);
      assert [a[0]] + a[1..] == a;
    }
  }

  lemma {:induction false} SplitTwo(a: string, b: string)
    requires '/' !in a && '/' !in b
    ensures Split(a + "/" + b, '/') == [a, b]
    decreases |a|
  {
    if a == [] {
      assert a + "/" + b == ['/'] + b;
      assert (['/'] + b)[1..] == b;
      SplitOne(b);
    } else {
      assert (a + "/" + b)[1..] == a[1..] + "/" + b;
      SplitTwo(a[1..], b);
      assert [a[0]] + a[1..] == a;
    }
  }

  /** The mapping step of `_get`: the raw value when asked for it or when the
      entry has no value map, else the label of the value, else the value. */
  function Present(v: Json, vm: Option<ValueMap>, raw: bool): (r: Json)
    ensures r != v ==> !raw && vm.Some? && exists i :: 0 <= i < |vm.value| && vm.value[i] == (v, r)
  {
    if raw || vm.None? then v
    else match LabelOf(vm.value, v)
      case Some(name) => name
      case None => v
  }

  // ---------------------------------------------------------------------
  // Reading: `_get` as a whole

  /** What a read returns, the cache afterwards and the URLs requested. */
  datatype ReadStep = ReadStep(result: Outcome<Json>, cache: Cache, requests: seq<string>)

  /** `_get(key, raw)` on a client whose registry is `api`. */
  function Read(api: Option<Api>, cache: Cache, ttl: int, now: int, key: string, raw: bool,
                t: GetTransport): (r: ReadStep)
    ensures cache.Keys <= r.cache.Keys
    ensures forall l :: l in r.cache ==>
      (l in cache && r.cache[l] == cache[l]) ||
      (l in r.requests && r.cache[l].location == l && r.cache[l].time == now)
    ensures |r.requests| > 0 ==>
      api.Some? && key in api.value.entries && r.requests <= Locations(api.value.entries[key].getters)
  {
    if api.None? then ReadStep(Raised, cache, [])
    else if key !in api.value.entries then ReadStep(Returned(JNull), cache, [])
    else
      var entry := api.value.entries[key];
      var gs := entry.getters;
      match Newest(gs, cache, now, ttl)
      case Some(k) =>
        // the cached document is indexed by the whole key, unguarded; the
        // path walk then uses the last getter, the scan loop's leftover
        var doc := cache[gs[k].location].data;
        if doc.JObj? && gs[k].key in doc.fields then
          ReadStep(Returned(Present(Walk(doc.fields[gs[k].key], gs[|gs| - 1].key), entry.valueMap, raw)),
                   cache, [])
        else ReadStep(Raised, cache, [])
      case None =>
        match FirstAnswering(gs, t)
        case None => ReadStep(Returned(JNull), cache, Locations(gs))
        case Some(i) =>
          var location := gs[i].location;
          var doc := t(location).document.value;
          if doc == JNull then ReadStep(Returned(JNull), cache, Locations(gs[..i + 1]))
          else
            ReadStep(Returned(Present(Walk(doc, gs[i].key), entry.valueMap, raw)),
                     cache[location := CacheEntry(location, doc, now)], Locations(gs[..i + 1]))
  }

  // ---------------------------------------------------------------------
  // Writing: `_post`

  /** The value sent. Building the inverse of a value map raises when a
      label cannot key a dictionary, and looking the value up in it raises
      when the value cannot; otherwise a label becomes its code, and a code,
      or anything else, is sent as it is. */
  function Outgoing(vm: Option<ValueMap>, v: Json): (r: Outcome<Json>)
    ensures r == Raised <==> vm.Some? && !(LabelsHashable(vm.value) && Hashable(v))
    ensures r.Returned? && r.value != v ==>
      vm.Some? && exists i :: 0 <= i < |vm.value| && vm.value[i] == (r.value, v)
  {
    if vm.None? then Returned(v)
    else if !LabelsHashable(vm.value) || !Hashable(v) then Raised
    else match CodeOf(vm.value, v)
      case Some(code) => Returned(code)
      case None => Returned(v)
  }

  function Encode(field: string, v: Json, usesJson: bool): Body
  {
    if usesJson then JsonBody(field, v) else FormBody(field, v)
  }

  /** The POSTs made to the setters `ss`, in order. */
  function Posts(ss: seq<Endpoint>, v: Json, usesJson: bool): (r: seq<(string, Body)>)
    ensures |r| == |ss|
    ensures forall j :: 0 <= j < |ss| ==> r[j] == (ss[j].location, Encode(ss[j].key, v, usesJson))
    decreases |ss|
  {
    if ss == [] then []
    else
      var s := ss[|ss| - 1];
      Posts(ss[..|ss| - 1], v, usesJson) + [(s.location, Encode(s.key, v, usesJson))]
  }

  lemma PostsExtend(ss: seq<Endpoint>, v: Json, usesJson: bool, i: nat)
    requires i < |ss|
    ensures Posts(ss[..i + 1], v, usesJson) ==
      Posts(ss[..i], v, usesJson) + [(ss[i].location, Encode(ss[i].key, v, usesJson))]
  {
    assert ss[..i + 1][..i] == ss[..i];
  }

  /** The setter's URL answered the POST with status 200. */
  predicate Delivers(t: PostTransport, s: Endpoint, v: Json, usesJson: bool)
  {
    t(s.location, Encode(s.key, v, usesJson)).status == 200
  }

  /** The reply starts with one of the registry's success strings. */
  predicate Confirms(text: string, markers: seq<string>)
  {
    exists n :: 0 <= n < |markers| && markers[n] <= text
  }

  /** `_post`'s three returns: False, True and the implicit None. */
  datatype PostResult = NotWritable | Delivered | Undelivered

  /** What a write returns, whether the reply carried a success string (only
      logged), and the POSTs made. */
  datatype WriteStep = WriteStep(result: Outcome<PostResult>, confirmed: bool, posts: seq<(string, Body)>)

  /** The setter loop of `_post`: POST `v` to each setter in order; the
      first that answers 200 settles the call, success string or not. */
  function Send(ss: seq<Endpoint>, v: Json, usesJson: bool, markers: seq<string>, t: PostTransport): (r: WriteStep)
    ensures r.result == Returned(Delivered) <==> exists j :: 0 <= j < |ss| && Delivers(t, ss[j], v, usesJson)
    ensures r.result != Returned(Delivered) ==> r.result == Returned(Undelivered) && !r.confirmed
  {
    match FirstWhere(ss, (s: Endpoint) => Delivers(t, s, v, usesJson))
    case None => WriteStep(Returned(Undelivered), false, Posts(ss, v, usesJson))
    case Some(i) =>
      var reply := t(ss[i].location, Encode(ss[i].key, v, usesJson));
      WriteStep(Returned(Delivered), Confirms(reply.text, markers), Posts(ss[..i + 1], v, usesJson))
  }

  lemma SendStopsAtFirstDelivery(ss: seq<Endpoint>, v: Json, usesJson: bool, markers: seq<string>, t: PostTransport, i: nat)
    requires i < |ss| && Delivers(t, ss[i], v, usesJson)
    requires forall j :: 0 <= j < i ==> !Delivers(t, ss[j], v, usesJson)
    ensures Send(ss, v, usesJson, markers, t) ==
      WriteStep(Returned(Delivered), Confirms(t(ss[i].location, Encode(ss[i].key, v, usesJson)).text, markers),
                Posts(ss[..i + 1], v, usesJson))
  {
    assert FirstWhere(ss, (s: Endpoint) => Delivers(t, s, v, usesJson)) == Some(i);
  }

  lemma SendExhausted(ss: seq<Endpoint>, v: Json, usesJson: bool, markers: seq<string>, t: PostTransport)
    requires forall j :: 0 <= j < |ss| ==> !Delivers(t, ss[j], v, usesJson)
    ensures Send(ss, v, usesJson, markers, t) == WriteStep(Returned(Undelivered), false, Posts(ss, v, usesJson))
  {
    assert FirstWhere(ss, (s: Endpoint) => Delivers(t, s, v, usesJson)) == None;
  }

  /** `_post(key, value)` on a client whose registry is `api`. */
  function Write(api: Option<Api>, key: string, value: Json, t: PostTransport): WriteStep
  {
    if api.None? then WriteStep(Raised, false, [])
    else if key !in api.value.entries || |api.value.entries[key].setters| < 1 then
      WriteStep(Returned(NotWritable), false, [])
    else
      var entry := api.value.entries[key];
      match Outgoing(entry.valueMap, value)
      case Raised => WriteStep(Raised, false, [])
      case Returned(v) => Send(entry.setters, v, entry.usesJson, api.value.successStrings, t)
  }

  // ---------------------------------------------------------------------
  // The client object

  class TStat {
    var cache: Cache
    var cacheExpiry: int
    /** None when the model detection found no registry. */
    var api: Option<Api>

    /** Without a registry, the client reads the model through the base
        registry and picks the registry that lists it. */
    constructor (cacheExpiry: int, api: Option<Api>, now: int, t: GetTransport)
      ensures this.cacheExpiry == cacheExpiry
      ensures api.Some? ==> this.api == api && cache == map[]
      ensures api.None? ==>
        var step := Read(Some(BaseApi()), map[], cacheExpiry, now, "model", false, t);
        step.result.Returned? && this.api == GetApi(step.result.value) && cache == step.cache
    {
      this.cacheExpiry := cacheExpiry;
      cache := map[];
      this.api := Some(BaseApi());
      new;
      if api.None? {
        var model, _ := GetModel(false, now, t);
        this.api := GetApi(model.value);
      } else {
        this.api := api;
      }
    }

    method SetCacheExpiry(newExpiry: int)
      modifies this`cacheExpiry
      ensures cacheExpiry == newExpiry
    {
      cacheExpiry := newExpiry;
    }

    /** The cache scan of `_get`: the chosen getter, and the scan's loop
        variable as the loop leaves it (the last getter). */
    method FindNewest(gs: seq<Endpoint>, now: int) returns (newest: Option<nat>, getter: Endpoint)
      ensures newest == Newest(gs, cache, now, cacheExpiry)
      ensures |gs| > 0 ==> getter == gs[|gs| - 1]
    {
      newest := None;
      getter := Endpoint("", "");
      var i := 0;
      while i < |gs|
        invariant 0 <= i <= |gs|
        invariant newest == Newest(gs[..i], cache, now, cacheExpiry)
        invariant i > 0 ==> getter == gs[i - 1]
      {
        getter := gs[i];
        if getter.location in cache {
          var age := now - cache[getter.location].time;
          if age < cacheExpiry {
            if newest.None? || age < now - cache[gs[newest.value].location].time {
              newest := Some(i);
            }
          }
        }
        assert gs[..i + 1][..i] == gs[..i];
        i := i + 1;
      }
      assert gs[..i] == gs;
    }

    /** The network loop of `_get`: GET each getter's URL in order until one
        answers 200 with a body that decodes. `response` is the decoded body
        (None, that is JNull, when no getter answers) and `getter` the getter
        the loop stopped at. */
    method Fetch(gs: seq<Endpoint>, t: GetTransport) returns (response: Json, getter: Endpoint, requests: seq<string>)
      ensures FirstAnswering(gs, t).None? ==> response == JNull && requests == Locations(gs)
      ensures FirstAnswering(gs, t).Some? ==>
        var i := FirstAnswering(gs, t).value;
        getter == gs[i] && response == t(gs[i].location).document.value && requests == Locations(gs[..i + 1])
    {
      response := JNull;
      getter := Endpoint("", "");
      requests := [];
      var i := 0;
      while i < |gs|
        invariant 0 <= i <= |gs|
        invariant requests == Locations(gs[..i])
        invariant forall j :: 0 <= j < i ==> !Answers(t, gs[j].location)
        invariant response == JNull
      {
        getter := gs[i];
        var reply := t(getter.location);
        assert gs[..i + 1][..i] == gs[..i];
        requests := requests + [getter.location];
        if reply.status != 200 || reply.document.None? {
          i := i + 1;
          continue;
        }
        response := reply.document.value;
        return;
      }
      assert gs[..i] == gs;
    }

    /** `for key in path.split("/"): try: response = response[key]
        except: pass`. */
    static method FollowPath(v: Json, path: string) returns (response: Json)
      ensures response == Walk(v, path)
    {
      response := v;
      var keys := Split(path, '/');
      var j := 0;
      while j < |keys|
        invariant 0 <= j <= |keys|
        invariant Descend(response, keys[j..]) == Descend(v, keys)
      {
        if response.JObj? && keys[j] in response.fields {
          response := response.fields[keys[j]];
        }
        j := j + 1;
      }
    }

    /** `_get`. */
    method Get(key: string, raw: bool, now: int, t: GetTransport) returns (result: Outcome<Json>, requests: seq<string>)
      modifies this`cache
      ensures ReadStep(result, cache, requests) == Read(api, old(cache), cacheExpiry, now, key, raw, t)
    {
      requests := [];
      if api.None? {
        return Raised, requests;
      }
      if key !in api.value.entries {
        return Returned(JNull), requests;
      }
      var entry := api.value.entries[key];
      var gs := entry.getters;

      var newest, getter := FindNewest(gs, now);
      var response;
      if newest.Some? {
        var data := cache[gs[newest.value].location].data;
        if !(data.JObj? && gs[newest.value].key in data.fields) {
          return Raised, requests;
        }
        response := data.fields[gs[newest.value].key];
      } else {
        response, getter, requests := Fetch(gs, t);
        if response == JNull {
          return Returned(JNull), requests;
        }
        cache := cache[getter.location := CacheEntry(getter.location, response, now)];
      }

      response := FollowPath(response, getter.key);

      if raw || entry.valueMap.None? {
        return Returned(response), requests;
      }
      var mapped := LabelOf(entry.valueMap.value, response);
      if mapped.Some? {
        return Returned(mapped.value), requests;
      }
      return Returned(response), requests;
    }

    /** The success-string loop of `_post`: whether the reply starts with one
        of the markers. */
    static method StartsWithMarker(text: string, markers: seq<string>) returns (success: bool)
      ensures success <==> Confirms(text, markers)
    {
      success := false;
      var m := 0;
      while m < |markers|
        invariant 0 <= m <= |markers|
        invariant !success
        invariant forall n :: 0 <= n < m ==> !(markers[n] <= text)
      {
        if markers[m] <= text {
          success := true;
          break;
        }
        m := m + 1;
      }
    }

    /** `_post`. The cache is left as it is. */
    method Post(key: string, value: Json, t: PostTransport)
      returns (result: Outcome<PostResult>, confirmed: bool, posts: seq<(string, Body)>)
      ensures WriteStep(result, confirmed, posts) == Write(api, key, value, t)
    {
      posts := [];
      if api.None? {
        return Raised, false, posts;
      }
      if key !in api.value.entries {
        return Returned(NotWritable), false, posts;
      }
      var entry := api.value.entries[key];
      if |entry.setters| < 1 {
        return Returned(NotWritable), false, posts;
      }

      var v := value;
      if entry.valueMap.Some? {
        if !LabelsHashable(entry.valueMap.value) || !Hashable(value) {
          return Raised, false, posts;
        }
        var code := CodeOf(entry.valueMap.value, value);
        if code.Some? {
          v := code.value;
        }
      }
      assert Outgoing(entry.valueMap, value) == Returned(v);

      result, confirmed, posts := SendAll(entry.setters, v, entry.usesJson, api.value.successStrings, t);
    }

    /** The setter loop of `_post`. */
    static method SendAll(ss: seq<Endpoint>, v: Json, usesJson: bool, markers: seq<string>, t: PostTransport)
      returns (result: Outcome<PostResult>, confirmed: bool, posts: seq<(string, Body)>)
      ensures WriteStep(result, confirmed, posts) == Send(ss, v, usesJson, markers, t)
    {
      posts := [];
      var i := 0;
      while i < |ss|
        invariant 0 <= i <= |ss|
        invariant posts == Posts(ss[..i], v, usesJson)
        invariant forall j :: 0 <= j < i ==> !Delivers(t, ss[j], v, usesJson)
      {
        var setter := ss[i];
        var body := Encode(setter.key, v, usesJson);
        PostsExtend(ss, v, usesJson, i);
        posts := posts + [(setter.location, body)];
        var reply := t(setter.location, body);
        if reply.status != 200 {
          i := i + 1;
          continue;
        }
        var success := StartsWithMarker(reply.text, markers);
        SendStopsAtFirstDelivery(ss, v, usesJson, markers, t, i);
        return Returned(Delivered), success, posts;
      }
      assert ss[..i] == ss;
      SendExhausted(ss, v, usesJson, markers, t);
      return Returned(Undelivered), false, posts;
    }

    // The public accessors, each a `_get` or `_post` of one name.

    method GetCurrentTemp(raw: bool, now: int, t: GetTransport) returns (result: Outcome<Json>, requests: seq<string>)
      modifies this`cache
      ensures ReadStep(result, cache, requests) == Read(api, old(cache), cacheExpiry, now, "temp", raw, t)
    {
      result, requests := Get("temp", raw, now, t);
    }

    method GetTstatMode(raw: bool, now: int, t: GetTransport) returns (result: Outcome<Json>, requests: seq<string>)
      modifies this`cache
      ensures ReadStep(result, cache, requests) == Read(api, old(cache), cacheExpiry, now, "tmode", raw, t)
    {
      result, requests := Get("tmode", raw, now, t);
    }

    method SetTstatMode(value: Json, t: PostTransport) returns (result: Outcome<PostResult>, confirmed: bool, posts: seq<(string, Body)>)
      ensures WriteStep(result, confirmed, posts) == Write(api, "tmode", value, t)
    {
      result, confirmed, posts := Post("tmode", value, t);
    }

    method GetFanMode(raw: bool, now: int, t: GetTransport) returns (result: Outcome<Json>, requests: seq<string>)
      modifies this`cache
      ensures ReadStep(result, cache, requests) == Read(api, old(cache), cacheExpiry, now, "fmode", raw, t)
    {
      result, requests := Get("fmode", raw, now, t);
    }

    method SetFanMode(value: Json, t: PostTransport) returns (result: Outcome<PostResult>, confirmed: bool, posts: seq<(string, Body)>)
      ensures WriteStep(result, confirmed, posts) == Write(api, "fmode", value, t)
    {
      result, confirmed, posts := Post("fmode", value, t);
    }

    method GetOverride(raw: bool, now: int, t: GetTransport) returns (result: Outcome<Json>, requests: seq<string>)
      modifies this`cache
      ensures ReadStep(result, cache, requests) == Read(api, old(cache), cacheExpiry, now, "override", raw, t)
    {
      result, requests := Get("override", raw, now, t);
    }

    method GetPower(raw: bool, now: int, t: GetTransport) returns (result: Outcome<Json>, requests: seq<string>)
      modifies this`cache
      ensures ReadStep(result, cache, requests) == Read(api, old(cache), cacheExpiry, now, "power", raw, t)
    {
      result, requests := Get("power", raw, now, t);
    }

    method SetPower(value: Json, t: PostTransport) returns (result: Outcome<PostResult>, confirmed: bool, posts: seq<(string, Body)>)
      ensures WriteStep(result, confirmed, posts) == Write(api, "power", value, t)
    {
      result, confirmed, posts := Post("power", value, t);
    }

    method GetHoldState(raw: bool, now: int, t: GetTransport) returns (result: Outcome<Json>, requests: seq<string>)
      modifies this`cache
      ensures ReadStep(result, cache, requests) == Read(api, old(cache), cacheExpiry, now, "hold", raw, t)
    {
      result, requests := Get("hold", raw, now, t);
    }

    method SetHoldState(value: Json, t: PostTransport) returns (result: Outcome<PostResult>, confirmed: bool, posts: seq<(string, Body)>)
      ensures WriteStep(result, confirmed, posts) == Write(api, "hold", value, t)
    {
      result, confirmed, posts := Post("hold", value, t);
    }

    method GetHeatPoint(raw: bool, now: int, t: GetTransport) returns (result: Outcome<Json>, requests: seq<string>)
      modifies this`cache
      ensures ReadStep(result, cache, requests) == Read(api, old(cache), cacheExpiry, now, "t_heat", raw, t)
    {
      result, requests := Get("t_heat", raw, now, t);
    }

    method SetHeatPoint(value: Json, t: PostTransport) returns (result: Outcome<PostResult>, confirmed: bool, posts: seq<(string, Body)>)
      ensures WriteStep(result, confirmed, posts) == Write(api, "t_heat", value, t)
    {
      result, confirmed, posts := Post("t_heat", value, t);
    }

    method GetCoolPoint(raw: bool, now: int, t: GetTransport) returns (result: Outcome<Json>, requests: seq<string>)
      modifies this`cache
      ensures ReadStep(result, cache, requests) == Read(api, old(cache), cacheExpiry, now, "t_cool", raw, t)
    {
      result, requests := Get("t_cool", raw, now, t);
    }

    method SetCoolPoint(value: Json, t: PostTransport) returns (result: Outcome<PostResult>, confirmed: bool, posts: seq<(string, Body)>)
      ensures WriteStep(result, confirmed, posts) == Write(api, "t_cool", value, t)
    {
      result, confirmed, posts := Post("t_cool", value, t);
    }

    /** Both set points; the `raw` flag is not passed on, and the second read
        sees the cache the first one left. */
    method GetSetPoints(raw: bool, now: int, t: GetTransport) returns (result: Outcome<(Json, Json)>, requests: seq<string>)
      modifies this`cache
      ensures
        var heat := Read(api, old(cache), cacheExpiry, now, "t_heat", false, t);
        var cool := Read(api, heat.cache, cacheExpiry, now, "t_cool", false, t);
        if heat.result.Raised? then result.Raised? && cache == heat.cache && requests == heat.requests
        else if cool.result.Raised? then result.Raised? && cache == cool.cache && requests == heat.requests + cool.requests
        else result == Returned((heat.result.value, cool.result.value)) && cache == cool.cache &&
             requests == heat.requests + cool.requests
    {
      var heat, heatRequests := GetHeatPoint(false, now, t);
      if heat.Raised? {
        return Raised, heatRequests;
      }
      var cool, coolRequests := GetCoolPoint(false, now, t);
      requests := heatRequests + coolRequests;
      if cool.Raised? {
        return Raised, requests;
      }
      result := Returned((heat.value, cool.value));
    }

    method GetModel(raw: bool, now: int, t: GetTransport) returns (result: Outcome<Json>, requests: seq<string>)
      modifies this`cache
      ensures ReadStep(result, cache, requests) == Read(api, old(cache), cacheExpiry, now, "model", raw, t)
    {
      result, requests := Get("model", raw, now, t);
    }

    method GetTState(raw: bool, now: int, t: GetTransport) returns (result: Outcome<Json>, requests: seq<string>)
      modifies this`cache
      ensures ReadStep(result, cache, requests) == Read(api, old(cache), cacheExpiry, now, "tstate", raw, t)
    {
      result, requests := Get("tstate", raw, now, t);
    }

    method GetFanState(raw: bool, now: int, t: GetTransport) returns (result: Outcome<Json>, requests: seq<string>)
      modifies this`cache
      ensures ReadStep(result, cache, requests) == Read(api, old(cache), cacheExpiry, now, "fstate", raw, t)
    {
      result, requests := Get("fstate", raw, now, t);
    }

    // The four run-time counters ignore `raw` (they have no value map).

    method GetHeatUsageToday(raw: bool, now: int, t: GetTransport) returns (result: Outcome<Json>, requests: seq<string>)
      modifies this`cache
      ensures ReadStep(result, cache, requests) == Read(api, old(cache), cacheExpiry, now, "today_heat_runtime", false, t)
    {
      result, requests := Get("today_heat_runtime", false, now, t);
    }

    method GetHeatUsageYesterday(raw: bool, now: int, t: GetTransport) returns (result: Outcome<Json>, requests: seq<string>)
      modifies this`cache
      ensures ReadStep(result, cache, requests) == Read(api, old(cache), cacheExpiry, now, "yesterday_heat_runtime", false, t)
    {
      result, requests := Get("yesterday_heat_runtime", false, now, t);
    }

    method GetCoolUsageToday(raw: bool, now: int, t: GetTransport) returns (result: Outcome<Json>, requests: seq<string>)
      modifies this`cache
      ensures ReadStep(result, cache, requests) == Read(api, old(cache), cacheExpiry, now, "today_cool_runtime", false, t)
    {
      result, requests := Get("today_cool_runtime", false, now, t);
    }

    method GetCoolUsageYesterday(raw: bool, now: int, t: GetTransport) returns (result: Outcome<Json>, requests: seq<string>)
      modifies this`cache
      ensures ReadStep(result, cache, requests) == Read(api, old(cache), cacheExpiry, now, "yesterday_cool_runtime", false, t)
    {
      result, requests := Get("yesterday_cool_runtime", false, now, t);
    }

    /** Whether the error status reads as the label "OK". */
    method IsOK(now: int, t: GetTransport) returns (result: Outcome<bool>, requests: seq<string>)
      modifies this`cache
      ensures
        var step := Read(api, old(cache), cacheExpiry, now, "errstatus", false, t);
        cache == step.cache && requests == step.requests &&
        result == (if step.result.Raised? then Raised else Returned(step.result.value == JStr("OK")))
    {
      var status;
      status, requests := Get("errstatus", false, now, t);
      if status.Raised? {
        return Raised, requests;
      }
      result := Returned(status.value == JStr("OK"));
    }

    method GetErrStatus(now: int, t: GetTransport) returns (result: Outcome<Json>, requests: seq<string>)
      modifies this`cache
      ensures ReadStep(result, cache, requests) == Read(api, old(cache), cacheExpiry, now, "errstatus", false, t)
    {
      result, requests := Get("errstatus", false, now, t);
    }

    method SetCloudMode(value: Json, t: PostTransport) returns (result: Outcome<PostResult>, confirmed: bool, posts: seq<(string, Body)>)
      ensures WriteStep(result, confirmed, posts) == Write(api, "cloud_mode", value, t)
    {
      result, confirmed, posts := Post("cloud_mode", value, t);
    }
  }
}
