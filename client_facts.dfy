/** Properties of the client's reads and writes, stated on the
    specification functions `Read` and `Write` that `TStat.Get` and
    `TStat.Post` are proved to compute. */
module ClientFacts {
  import opened Values
  import opened Registry
  import opened Client

  // ---------------------------------------------------------------------
  // Reads

  /** A name the registry does not know reads as None, without a request. */
  lemma UnknownKeyReadsNothing(api: Api, cache: Cache, ttl: int, now: int, key: string, raw: bool, t: GetTransport)
    requires key !in api.entries
    ensures Read(Some(api), cache, ttl, now, key, raw, t) == ReadStep(Returned(JNull), cache, [])
  {
  }

  /** When any getter's URL has a fresh cache entry, the read makes no
      request and leaves the cache as it is; it uses the freshest entry, and
      it raises exactly when that entry's document has no top-level field
      named by the getter's whole key. */
  lemma FreshEntryServesRead(api: Api, cache: Cache, ttl: int, now: int, key: string, raw: bool,
                             t: GetTransport, j: int)
    requires key in api.entries
    requires 0 <= j < |api.entries[key].getters|
    requires Fresh(cache, api.entries[key].getters[j].location, now, ttl)
    ensures
      var gs := api.entries[key].getters;
      var step := Read(Some(api), cache, ttl, now, key, raw, t);
      && step.requests == []
      && step.cache == cache
      && exists k: nat :: IsFreshest(gs, cache, now, ttl, Some(k)) &&
           (step.result.Raised? <==> !(cache[gs[k].location].data.JObj? &&
                                       gs[k].key in cache[gs[k].location].data.fields)) &&
           (step.result.Returned? ==>
              var doc := cache[gs[k].location].data;
              doc.JObj? && gs[k].key in doc.fields &&
              step.result.value == Present(Walk(doc.fields[gs[k].key], gs[|gs| - 1].key), api.entries[key].valueMap, raw))
  {
    var gs := api.entries[key].getters;
    NewestIsFreshest(gs, cache, now, ttl);
  }

  /** Without a fresh entry, and with no getter's URL answering 200 with a
      decodable body, every URL is requested once, in declared order, and
      the read returns None with the cache untouched. */
  lemma StaleReadNoAnswer(api: Api, cache: Cache, ttl: int, now: int, key: string, raw: bool, t: GetTransport)
    requires key in api.entries
    requires forall j :: 0 <= j < |api.entries[key].getters| ==>
               !Fresh(cache, api.entries[key].getters[j].location, now, ttl)
    requires forall j :: 0 <= j < |api.entries[key].getters| ==> !Answers(t, api.entries[key].getters[j].location)
    ensures Read(Some(api), cache, ttl, now, key, raw, t) ==
      ReadStep(Returned(JNull), cache, Locations(api.entries[key].getters))
  {
    var gs := api.entries[key].getters;
    assert Newest(gs, cache, now, ttl).None?;
    assert FirstWhere(gs, (g: Endpoint) => Answers(t, g.location)) == None;
  }

  /** Without a fresh entry, the URLs are requested in declared order up to
      the first one that answers, and no further. Only that URL's cache
      entry changes: it holds the new document, stamped with the current
      time, and the result is the document walked along the getter's path
      and translated. A null document is returned as None and not cached.
      The read does not raise on this path. */
  lemma StaleReadFetches(api: Api, cache: Cache, ttl: int, now: int, key: string, raw: bool, t: GetTransport, i: nat)
    requires key in api.entries
    requires forall j :: 0 <= j < |api.entries[key].getters| ==>
               !Fresh(cache, api.entries[key].getters[j].location, now, ttl)
    requires i < |api.entries[key].getters| && Answers(t, api.entries[key].getters[i].location)
    requires forall j :: 0 <= j < i ==> !Answers(t, api.entries[key].getters[j].location)
    ensures
      var e := api.entries[key];
      var g := e.getters[i];
      var doc := t(g.location).document.value;
      var step := Read(Some(api), cache, ttl, now, key, raw, t);
      && step.result.Returned?
      && step.requests == Locations(e.getters[..i + 1])
      && (forall l :: l != g.location ==>
            (l in step.cache <==> l in cache) && (l in cache ==> step.cache[l] == cache[l]))
      && (doc == JNull ==> step == ReadStep(Returned(JNull), cache, Locations(e.getters[..i + 1])))
      && (doc != JNull ==>
            && g.location in step.cache
            && step.cache[g.location] == CacheEntry(g.location, doc, now)
            && step.result.value == Present(Walk(doc, g.key), e.valueMap, raw))
  {
    var gs := api.entries[key].getters;
    assert Newest(gs, cache, now, ttl).None?;
    assert FirstWhere(gs, (g: Endpoint) => Answers(t, g.location)) == Some(i);
  }

  /** The common case of a name with one getter, read on a miss: one
      request, the document cached, the result walked and translated. */
  lemma SingleGetterFetch(api: Api, key: string, cache: Cache, ttl: int, now: int, raw: bool, t: GetTransport)
    requires key in api.entries && |api.entries[key].getters| >= 1
    requires
      var g := api.entries[key].getters[0];
      !Fresh(cache, g.location, now, ttl) && Answers(t, g.location) && t(g.location).document.value != JNull
    requires forall j :: 0 <= j < |api.entries[key].getters| ==>
               !Fresh(cache, api.entries[key].getters[j].location, now, ttl)
    ensures
      var e := api.entries[key];
      var g := e.getters[0];
      var doc := t(g.location).document.value;
      var step := Read(Some(api), cache, ttl, now, key, raw, t);
      && step.result == Returned(Present(Walk(doc, g.key), e.valueMap, raw))
      && step.cache == cache[g.location := CacheEntry(g.location, doc, now)]
      && step.requests == [g.location]
  {
    var gs := api.entries[key].getters;
    StaleReadFetches(api, cache, ttl, now, key, raw, t, 0);
    assert gs[..1] == [gs[0]];
    var step := Read(Some(api), cache, ttl, now, key, raw, t);
    var l := gs[0].location;
    var expected := cache[l := CacheEntry(l, t(l).document.value, now)];
    assert step.cache.Keys == expected.Keys;
  }

  /** A fetch serves later reads of every name with a getter on the same URL,
      for as long as the entry is fresh. */
  lemma FetchServesSharedLocation(api: Api, cache: Cache, ttl: int, now: int, first: string, second: string,
                                  raw: bool, t: GetTransport, j: int)
    requires ttl > 0
    requires second in api.entries && 0 <= j < |api.entries[second].getters|
    requires
      var step := Read(Some(api), cache, ttl, now, first, raw, t);
      var l := api.entries[second].getters[j].location;
      l in step.cache && step.cache[l].time == now
    ensures
      var step := Read(Some(api), cache, ttl, now, first, raw, t);
      Read(Some(api), step.cache, ttl, now, second, raw, t).requests == []
  {
    var step := Read(Some(api), cache, ttl, now, first, raw, t);
    FreshEntryServesRead(api, step.cache, ttl, now, second, raw, t, j);
  }

  // The examples below hold for any registry with the entries of the CT50
  // table that they name (Registry.ExampleEntries).

  /** `getSetPoints`: the heat set point is fetched from /tstat/info, and the
      cool set point read right after it comes from the cache. */
  lemma SetPointsShareOneFetch(api: Api, ttl: int, now: int, t: GetTransport, fields: map<string, Json>)
    requires "t_heat" in api.entries && api.entries["t_heat"] == SetPointEntry("t_heat")
    requires "t_cool" in api.entries && api.entries["t_cool"] == SetPointEntry("t_cool")
    requires ttl > 0
    requires t("/tstat/info") == GetResponse(200, Some(JObj(fields)))
    ensures
      var heat := Read(Some(api), map[], ttl, now, "t_heat", false, t);
      var cool := Read(Some(api), heat.cache, ttl, now, "t_cool", false, t);
      heat.requests == ["/tstat/info"] && cool.requests == [] && cool.cache == heat.cache
  {
    SingleGetterFetch(api, "t_heat", map[], ttl, now, false, t);
    var heat := Read(Some(api), map[], ttl, now, "t_heat", false, t);
    FreshEntryServesRead(api, heat.cache, ttl, now, "t_cool", false, t, 0);
  }

  /** A slash path "a/b" reads a nested field on a fetch ... */
  lemma NestedPathOnFetch(api: Api, key: string, cache: Cache, ttl: int, now: int, t: GetTransport,
                          location: string, a: string, b: string, v: Json)
    requires '/' !in a && '/' !in b && a != [] && b != []
    requires key in api.entries && api.entries[key] == ReadOnly(location, a + "/" + b)
    requires !Fresh(cache, location, now, ttl)
    requires t(location) == GetResponse(200, Some(JObj(map[a := JObj(map[b := v])])))
    ensures Read(Some(api), cache, ttl, now, key, false, t).result == Returned(v)
  {
    SingleGetterFetch(api, key, cache, ttl, now, false, t);
    WalkNested(map[b := v], map[a := JObj(map[b := v])], a, b);
  }

  /** ... but a fresh cache entry for the same document is indexed by the
      whole path as one key, which is not there: the read raises. */
  lemma NestedPathOnCacheHitRaises(api: Api, key: string, cache: Cache, ttl: int, now: int, raw: bool,
                                   t: GetTransport, location: string, a: string, b: string,
                                   fields: map<string, Json>)
    requires key in api.entries && api.entries[key] == ReadOnly(location, a + "/" + b)
    requires Fresh(cache, location, now, ttl)
    requires cache[location].data == JObj(fields) && a + "/" + b !in fields
    ensures Read(Some(api), cache, ttl, now, key, raw, t).result == Raised
  {
    FreshEntryServesRead(api, cache, ttl, now, key, raw, t, 0);
  }

  /** The fan-mode example: the raw value 1 is read from /tstat/fmode and
      the document is cached ... */
  lemma FanModeRawReadExample(api: Api, now: int, t: GetTransport)
    requires "fmode" in api.entries && api.entries["fmode"] == FanModeEntry()
    requires t("/tstat/fmode") == GetResponse(200, Some(JObj(map["fmode" := JInt(1)])))
    ensures Read(Some(api), map[], 5, now, "fmode", true, t) ==
      ReadStep(Returned(JInt(1)),
               map["/tstat/fmode" := CacheEntry("/tstat/fmode", JObj(map["fmode" := JInt(1)]), now)],
               ["/tstat/fmode"])
  {
    WalkField(map["fmode" := JInt(1)], "fmode");
    SingleGetterFetch(api, "fmode", map[], 5, now, true, t);
  }

  /** ... and translated to the label "??" when the value map is applied. */
  lemma FanModeLabelReadExample(api: Api, now: int, t: GetTransport)
    requires "fmode" in api.entries && api.entries["fmode"] == FanModeEntry()
    requires t("/tstat/fmode") == GetResponse(200, Some(JObj(map["fmode" := JInt(1)])))
    ensures Read(Some(api), map[], 5, now, "fmode", false, t).result == Returned(JStr("??"))
  {
    WalkField(map["fmode" := JInt(1)], "fmode");
    StandardMapsReadable(FanModes());
    LookupBothWays(FanModes(), 1);
    SingleGetterFetch(api, "fmode", map[], 5, now, false, t);
  }

  /** cloud_mode has no getters: reading it returns None without a request. */
  lemma CloudModeReadsNothing(api: Api, cache: Cache, ttl: int, now: int, raw: bool, t: GetTransport)
    requires "cloud_mode" in api.entries && api.entries["cloud_mode"] == CloudModeEntry()
    ensures Read(Some(api), cache, ttl, now, "cloud_mode", raw, t) == ReadStep(Returned(JNull), cache, [])
  {
    StaleReadNoAnswer(api, cache, ttl, now, "cloud_mode", raw, t);
  }

  /** Model detection through the base registry: a device that reports
      model m at /tstat/model has m read back. */
  lemma DetectsModel(ttl: int, now: int, t: GetTransport, m: string)
    requires t("/tstat/model") == GetResponse(200, Some(JObj(map["model" := JStr(m)])))
    ensures Read(Some(BaseApi()), map[], ttl, now, "model", false, t).result == Returned(JStr(m))
  {
    WalkField(map["model" := JStr(m)], "model");
    SingleGetterFetch(BaseApi(), "model", map[], ttl, now, false, t);
  }

  // ---------------------------------------------------------------------
  // Value translation

  /** Reading translates a code to its label and writing a label back to
      its code: decode(encode(label)) == label and encode(decode(code)) ==
      code. A code given to a write is sent as it is. */
  lemma ValueMapRoundTrip(vm: ValueMap, i: int)
    requires Bijective(vm) && CodesAreNotLabels(vm) && LabelsHashable(vm) && 0 <= i < |vm| && Hashable(vm[i].0)
    ensures Outgoing(Some(vm), vm[i].1) == Returned(vm[i].0)
    ensures Outgoing(Some(vm), vm[i].0) == Returned(vm[i].0)
    ensures Present(vm[i].0, Some(vm), false) == vm[i].1
    ensures var o := Outgoing(Some(vm), vm[i].1); o.Returned? && Present(o.value, Some(vm), false) == vm[i].1
    ensures Outgoing(Some(vm), Present(vm[i].0, Some(vm), false)) == Returned(vm[i].0)
  {
    LookupBothWays(vm, i);
    assert CodeOf(vm, vm[i].0).None? by {
      assert forall j :: 0 <= j < |vm| ==> vm[j].1 != vm[i].0;
    }
  }

  /** A value that is neither a code nor a label passes both ways unchanged
      (a write raises instead when the value, or a label, cannot key a
      dictionary), and `raw` skips the map altogether. */
  lemma UnknownValuePassesThrough(vm: ValueMap, v: Json, w: Json)
    requires forall i :: 0 <= i < |vm| ==> vm[i].0 != v && vm[i].1 != v
    ensures Outgoing(Some(vm), v) == if LabelsHashable(vm) && Hashable(v) then Returned(v) else Raised
    ensures Present(v, Some(vm), false) == v
    ensures Present(w, Some(vm), true) == w
  {
  }

  /** Every value map of the registry satisfies the round trip. */
  lemma RegistryMapsRoundTrip(key: string, i: int)
    requires key in Ct50v109().entries && Ct50v109().entries[key].valueMap.Some?
    requires 0 <= i < |Ct50v109().entries[key].valueMap.value|
    ensures
      var vm := Ct50v109().entries[key].valueMap.value;
      var o := Outgoing(Some(vm), vm[i].1);
      o.Returned? && Present(o.value, Some(vm), false) == vm[i].1 &&
      Outgoing(Some(vm), Present(vm[i].0, Some(vm), false)) == Returned(vm[i].0)
  {
    var vm := Ct50v109().entries[key].valueMap.value;
    TableUsesStandardMaps(key);
    StandardMapsReadable(vm);
    ValueMapRoundTrip(vm, i);
  }

  // ---------------------------------------------------------------------
  // Writes

  /** A name the registry does not know, or one without setters, is refused
      (False) without a POST. */
  lemma WriteRefused(api: Api, key: string, value: Json, t: PostTransport)
    requires key !in api.entries || api.entries[key].setters == []
    ensures Write(Some(api), key, value, t) == WriteStep(Returned(NotWritable), false, [])
  {
  }

  /** Every read-only name of the registry refuses writes. */
  lemma ReadOnlyNamesRefuseWrites(key: string, value: Json, t: PostTransport)
    requires key in ReadOnlyKeys()
    ensures Write(Some(Ct50v109()), key, value, t) == WriteStep(Returned(NotWritable), false, [])
  {
    if key in Ct50v109().entries {
      ReadOnlyEntriesHaveNoSetters(key);
    }
  }

  /** A writable name: when the value cannot be translated the call raises
      before any POST; otherwise the setters are POSTed in order with the
      translated value, and the call returns True as soon as one answers
      200, whatever the reply says, and None when none does. */
  lemma WriteTriesSettersInOrder(api: Api, key: string, value: Json, t: PostTransport)
    requires key in api.entries && api.entries[key].setters != []
    ensures
      var e := api.entries[key];
      Outgoing(e.valueMap, value) == Raised ==> Write(Some(api), key, value, t) == WriteStep(Raised, false, [])
    ensures
      var e := api.entries[key];
      var o := Outgoing(e.valueMap, value);
      o.Returned? ==>
      var v := o.value;
      var step := Write(Some(api), key, value, t);
      && (step.result == Returned(Delivered) <==> exists j :: 0 <= j < |e.setters| && Delivers(t, e.setters[j], v, e.usesJson))
      && (step.result == Returned(Undelivered) <==> forall j :: 0 <= j < |e.setters| ==> !Delivers(t, e.setters[j], v, e.usesJson))
      && 0 < |step.posts| <= |e.setters|
      && step.posts == Posts(e.setters[..|step.posts|], v, e.usesJson)
      && (forall j :: 0 <= j < |step.posts| - 1 ==> !Delivers(t, e.setters[j], v, e.usesJson))
      && (step.result == Returned(Delivered) ==> Delivers(t, e.setters[|step.posts| - 1], v, e.usesJson))
  {
    var e := api.entries[key];
    if Outgoing(e.valueMap, value).Raised? {
      return;
    }
    var v := Outgoing(e.valueMap, value).value;
    var p := (s: Endpoint) => Delivers(t, s, v, e.usesJson);
    var r := FirstWhere(e.setters, p);
    if r.Some? {
      assert p(e.setters[r.value]);
    } else {
      assert e.setters[..|e.setters|] == e.setters;
      forall j | 0 <= j < |e.setters| ensures !Delivers(t, e.setters[j], v, e.usesJson) {
        assert !p(e.setters[j]);
      }
    }
  }

  /** A first setter that fails and a second that answers 200: the write
      reports success, after exactly two POSTs, the last to the second. */
  lemma WriteFallsBackToSecondSetter(api: Api, key: string, value: Json, t: PostTransport)
    requires key in api.entries && |api.entries[key].setters| >= 2
    requires
      var e := api.entries[key];
      var o := Outgoing(e.valueMap, value);
      o.Returned? && !Delivers(t, e.setters[0], o.value, e.usesJson) && Delivers(t, e.setters[1], o.value, e.usesJson)
    ensures
      var e := api.entries[key];
      var v := Outgoing(e.valueMap, value).value;
      var step := Write(Some(api), key, value, t);
      step.result == Returned(Delivered) && |step.posts| == 2 &&
      step.posts[1] == (e.setters[1].location, Encode(e.setters[1].key, v, e.usesJson))
  {
    var e := api.entries[key];
    var v := Outgoing(e.valueMap, value).value;
    SendStopsAtFirstDelivery(e.setters, v, e.usesJson, api.successStrings, t, 1);
  }

  /** Writing 70 to t_heat: one JSON POST of {"t_heat": 70} to /tstat/ttemp,
      reported as delivered; the reply confirms it when it starts with a
      success string. */
  lemma HeatPointWriteExample(api: Api, t: PostTransport, reply: string)
    requires "t_heat" in api.entries && api.entries["t_heat"] == SetPointEntry("t_heat")
    requires t("/tstat/ttemp", JsonBody("t_heat", JInt(70))) == PostResponse(200, reply)
    ensures Write(Some(api), "t_heat", JInt(70), t) ==
      WriteStep(Returned(Delivered), Confirms(reply, api.successStrings),
                [("/tstat/ttemp", JsonBody("t_heat", JInt(70)))])
  {
    var e := api.entries["t_heat"];
    SendStopsAtFirstDelivery(e.setters, JInt(70), true, api.successStrings, t, 0);
    assert e.setters[..1] == e.setters;
  }

  /** The fan-mode label "On" is written as its code 2 ... */
  lemma FanModeWriteExample(api: Api, t: PostTransport)
    requires "fmode" in api.entries && api.entries["fmode"] == FanModeEntry()
    ensures Write(Some(api), "fmode", JStr("On"), t).posts ==
      [("/tstat/fmode", JsonBody("fmode", JInt(2)))]
  {
    StandardMapsReadable(FanModes());
    LookupBothWays(FanModes(), 2);
    WriteTriesSettersInOrder(api, "fmode", JStr("On"), t);
  }

  /** ... and cloud_mode is sent form-encoded. */
  lemma CloudModeWriteExample(api: Api, t: PostTransport, v: Json)
    requires "cloud_mode" in api.entries && api.entries["cloud_mode"] == CloudModeEntry()
    ensures Write(Some(api), "cloud_mode", v, t).posts ==
      [("/cloud/mode", FormBody("command", v))]
  {
    WriteTriesSettersInOrder(api, "cloud_mode", v, t);
  }
}
