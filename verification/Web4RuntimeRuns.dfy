/** Interleaved calls of `resolveFile`: every section between two suspension points of ios/Web4Runtime.swift is one
  step, so other calls and removals of cached files may fall anywhere between them. */
module Web4RuntimeRuns {
  import opened Bytes
  import opened Web4BlobCache
  import opened Web4Runtime

  /** What is served under each content id, and how the cache names and bounds its files. */
  datatype Web = Web(blob: Cid -> bytes, fileName: Cid -> FileName, maxBytes: int)

  datatype Phase =
    | Resolving                                // manifest not cached, request under way
    | Opening(manifest: Manifest)              // about to choose an entry and look for its file
    | Fetching(entry: Entry)                   // file not cached, request under way
    | Served(entry: Entry, file: FileName)
    | NotFound                                 // the manifest lists no candidate path
    | Failed                                   // a request or a write failed

  datatype Call = Call(domain: Domain, path: string, phase: Phase)

  /** `stored` remembers every manifest ever put under a domain, oldest first. */
  datatype State = State(
    manifests: map<Domain, Manifest>,
    files: Directory,
    calls: seq<Call>,
    stored: map<Domain, seq<Manifest>>)

  datatype Action =
    | Begin(domain: Domain, path: string)
    | ManifestReply(c: nat, manifest: Option<Manifest>)
    | Open(c: nat, now: int)
    | BlobReply(c: nat, data: Option<bytes>, now: int, writeOk: bool, names: seq<FileName>, n: nat)
    | Purge(f: FileName)

  function Stored(s: State, d: Domain): seq<Manifest> {
    if d in s.stored then s.stored[d] else []
  }

  function Written(web: Web, files: Directory, cid: Cid, data: bytes, now: int): Directory {
    files[web.fileName(cid) := File(data, now)]
  }

  /** Replies with a blob carry the one blob of that content id. */
  ghost predicate Enabled(web: Web, s: State, a: Action) {
    match a
    case Begin(_, _) => true
    case ManifestReply(c, _) => c < |s.calls| && s.calls[c].phase.Resolving?
    case Open(c, _) => c < |s.calls| && s.calls[c].phase.Opening?
    case BlobReply(c, data, now, writeOk, names, n) =>
      && c < |s.calls| && s.calls[c].phase.Fetching?
      && (data.Some? ==> data.value == web.blob(s.calls[c].phase.entry.cid))
      && (data.Some? && writeOk ==>
            Evicted(Written(web, s.files, s.calls[c].phase.entry.cid, data.value, now), names, n, web.maxBytes))
    case Purge(_) => true
  }

  function Goto(s: State, c: nat, phase: Phase): State
    requires c < |s.calls|
  {
    s.(calls := s.calls[c := s.calls[c].(phase := phase)])
  }

  ghost function Next(web: Web, s: State, a: Action): State
    requires Enabled(web, s, a)
  {
    match a
    case Begin(d, path) =>
      var m := Cached(s.manifests, d);
      s.(calls := s.calls + [Call(d, path, if m.Some? then Opening(m.value) else Resolving)])
    case ManifestReply(c, m) =>
      if m.None? then Goto(s, c, Failed)
      else
        var d := s.calls[c].domain;
        Goto(s, c, Opening(m.value)).(manifests := s.manifests[d := m.value],
                                      stored := s.stored[d := Stored(s, d) + [m.value]])
    case Open(c, now) =>
      var e := Chosen(s.calls[c].phase.manifest.files, s.calls[c].path);
      if e.None? then Goto(s, c, NotFound)
      else
        var f := web.fileName(e.value.cid);
        if f in s.files then Goto(s, c, Served(e.value, f)).(files := Touched(s.files, f, now))
        else Goto(s, c, Fetching(e.value))
    case BlobReply(c, data, now, writeOk, names, n) =>
      if data.None? || !writeOk then Goto(s, c, Failed)
      else
        var e := s.calls[c].phase.entry;
        Goto(s, c, Served(e, web.fileName(e.cid))).(
          files := Without(Written(web, s.files, e.cid, data.value, now), names[..n]))
    case Purge(f) => s.(files := s.files - {f})
  }

  /** A file found under a content id's name holds that content. */
  ghost predicate CacheOk(web: Web, files: Directory) {
    forall cid :: web.fileName(cid) in files ==> files[web.fileName(cid)].data == web.blob(cid)
  }

  ghost predicate CollisionFree(web: Web) {
    forall a, b :: web.fileName(a) == web.fileName(b) ==> a == b
  }

  /** The directory may already hold files of an earlier run of the application. */
  ghost predicate Run(web: Web, states: seq<State>, acts: seq<Action>) {
    && |states| == |acts| + 1
    && states[0].manifests == map[] && states[0].calls == [] && states[0].stored == map[]
    && CacheOk(web, states[0].files)
    && forall k :: 0 <= k < |acts| ==> Linked(web, states, acts, k)
  }

  ghost predicate Linked(web: Web, states: seq<State>, acts: seq<Action>, k: nat) {
    && k < |acts| && k + 1 < |states|
    && Enabled(web, states[k], acts[k]) && states[k + 1] == Next(web, states[k], acts[k])
  }

  // ---- The file cache ----

  lemma CacheStep(web: Web, s: State, a: Action)
    requires CollisionFree(web) && Enabled(web, s, a) && CacheOk(web, s.files)
    ensures CacheOk(web, Next(web, s, a).files)
  {
    var t := Next(web, s, a);
    forall cid | web.fileName(cid) in t.files ensures t.files[web.fileName(cid)].data == web.blob(cid) {
      if a.BlobReply? && t.files != s.files {
        var mine := s.calls[a.c].phase.entry.cid;
        assert web.fileName(cid) == web.fileName(mine) ==> cid == mine;
      }
    }
  }

  /** Whatever calls are under way, and whatever is removed, no cached file ever holds the wrong content. */
  lemma {:induction false} FilesHoldTheirBlobs(web: Web, states: seq<State>, acts: seq<Action>, k: nat)
    requires CollisionFree(web) && Run(web, states, acts) && k < |states|
    ensures CacheOk(web, states[k].files)
  {
    if k > 0 {
      FilesHoldTheirBlobs(web, states, acts, k - 1);
      assert Linked(web, states, acts, k - 1);
      CacheStep(web, states[k - 1], acts[k - 1]);
    }
  }

  /** A file just written for a call is still there after eviction exactly when it fits the bound by itself. */
  lemma FetchedFileStaysExactly(web: Web, s: State, a: Action)
    requires Enabled(web, s, a) && a.BlobReply? && a.data.Some? && a.writeOk
    requires forall f :: f in s.files ==> s.files[f].modified < a.now
    ensures web.fileName(s.calls[a.c].phase.entry.cid) in Next(web, s, a).files <==> |a.data.value| <= web.maxBytes
  {
    var cid := s.calls[a.c].phase.entry.cid;
    var written := Written(web, s.files, cid, a.data.value, a.now);
    NewestSurvivesExactly(written, a.names, a.n, web.maxBytes, web.fileName(cid));
  }

  /** A call is served from the cache exactly where its manifest has an entry for it and the entry's file is there; it asks for
    the blob exactly where the file is not. */
  lemma HitExactly(web: Web, s: State, c: nat, now: int)
    requires Enabled(web, s, Open(c, now))
    ensures var call := s.calls[c];
            var e := Chosen(call.phase.manifest.files, call.path);
            var after := Next(web, s, Open(c, now)).calls[c].phase;
            && (after == NotFound <==> e.None?)
            && (e.Some? ==> (after == Served(e.value, web.fileName(e.value.cid)) <==> web.fileName(e.value.cid) in s.files)
                            && (after == Fetching(e.value) <==> web.fileName(e.value.cid) !in s.files))
  {
  }

  /** At the moment a call is served its file is there, but for a blob that alone exceeds the bound. */
  lemma ServedFileIsThereExactly(web: Web, s: State, a: Action)
    requires Enabled(web, s, a) && (a.Open? || a.BlobReply?) && Next(web, s, a).calls[a.c].phase.Served?
    requires a.BlobReply? ==> forall f :: f in s.files ==> s.files[f].modified < a.now
    ensures var phase := Next(web, s, a).calls[a.c].phase;
            phase.file in Next(web, s, a).files <==> a.Open? || |web.blob(phase.entry.cid)| <= web.maxBytes
  {
    if a.BlobReply? {
      FetchedFileStaysExactly(web, s, a);
    }
  }

  // ---- The manifests ----

  ghost predicate ManifestsStored(s: State) {
    forall d ::
      && (d in s.manifests <==> Stored(s, d) != [])
      && (d in s.manifests ==> s.manifests[d] == Stored(s, d)[|Stored(s, d)| - 1])
  }

  /** The call's entry was chosen, for its path, from a manifest stored for its domain. */
  ghost predicate ChosenFromStored(s: State, call: Call, e: Option<Entry>) {
    exists k :: 0 <= k < |Stored(s, call.domain)| && Chosen(Stored(s, call.domain)[k].files, call.path) == e
  }

  ghost predicate CallOk(web: Web, s: State, call: Call) {
    match call.phase
    case Resolving => true
    case Opening(m) => m in Stored(s, call.domain)
    case Fetching(e) => ChosenFromStored(s, call, Some(e))
    case Served(e, f) => ChosenFromStored(s, call, Some(e)) && f == web.fileName(e.cid)
    case NotFound => ChosenFromStored(s, call, None)
    case Failed => true
  }

  ghost predicate CallsOk(web: Web, s: State) {
    forall c :: 0 <= c < |s.calls| ==> CallOk(web, s, s.calls[c])
  }

  lemma ManifestsStep(web: Web, s: State, a: Action)
    requires Enabled(web, s, a) && ManifestsStored(s)
    ensures ManifestsStored(Next(web, s, a))
  {
    var t := Next(web, s, a);
    forall d ensures (d in t.manifests <==> Stored(t, d) != [])
                  && (d in t.manifests ==> t.manifests[d] == Stored(t, d)[|Stored(t, d)| - 1]) {
      ManifestStep(web, s, a, d);
    }
  }

  lemma ManifestStep(web: Web, s: State, a: Action, d: Domain)
    requires Enabled(web, s, a)
    requires (d in s.manifests <==> Stored(s, d) != [])
             && (d in s.manifests ==> s.manifests[d] == Stored(s, d)[|Stored(s, d)| - 1])
    ensures (d in Next(web, s, a).manifests <==> Stored(Next(web, s, a), d) != [])
            && (d in Next(web, s, a).manifests ==>
                  Next(web, s, a).manifests[d] == Stored(Next(web, s, a), d)[|Stored(Next(web, s, a), d)| - 1])
  {
  }

  lemma StoredGrows(web: Web, s: State, a: Action, d: Domain)
    requires Enabled(web, s, a)
    ensures Stored(s, d) <= Stored(Next(web, s, a), d)
  {
  }

  lemma CallKeeps(web: Web, s: State, t: State, call: Call)
    requires CallOk(web, s, call) && Stored(s, call.domain) <= Stored(t, call.domain)
    ensures CallOk(web, t, call)
  {
    var a, b := Stored(s, call.domain), Stored(t, call.domain);
    assert forall k :: 0 <= k < |a| ==> a[k] == b[k];
  }

  /** The call whose turn it is. */
  predicate Moves(a: Action, c: nat) {
    (a.ManifestReply? || a.Open? || a.BlobReply?) && a.c == c
  }

  lemma MovedCallOk(web: Web, s: State, a: Action, c: nat)
    requires Enabled(web, s, a) && CallsOk(web, s) && Moves(a, c)
    ensures CallOk(web, Next(web, s, a), Next(web, s, a).calls[c])
  {
    var t := Next(web, s, a);
    var before, after := s.calls[c], t.calls[c];
    assert CallOk(web, s, before);
    StoredGrows(web, s, a, before.domain);
    if a.ManifestReply? && a.manifest.Some? {
      assert Stored(t, after.domain)[|Stored(s, after.domain)|] == a.manifest.value;
    } else if a.Open? {
      OpenedCallOk(web, s, a, c);
    } else if a.BlobReply? && !after.phase.Failed? {
      CallKeeps(web, s, t, before);
    }
  }

  lemma OpenedCallOk(web: Web, s: State, a: Action, c: nat)
    requires Enabled(web, s, a) && a.Open? && a.c == c && CallOk(web, s, s.calls[c])
    ensures CallOk(web, Next(web, s, a), Next(web, s, a).calls[c])
  {
    var before := s.calls[c];
    var k :| 0 <= k < |Stored(s, before.domain)| && Stored(s, before.domain)[k] == before.phase.manifest;
    assert Stored(Next(web, s, a), before.domain)[k] == before.phase.manifest;
  }

  lemma CallsStep(web: Web, s: State, a: Action)
    requires Enabled(web, s, a) && ManifestsStored(s) && CallsOk(web, s)
    ensures CallsOk(web, Next(web, s, a))
  {
    var t := Next(web, s, a);
    forall c | 0 <= c < |t.calls| ensures CallOk(web, t, t.calls[c]) {
      if Moves(a, c) {
        MovedCallOk(web, s, a, c);
      } else if c < |s.calls| {
        StoredGrows(web, s, a, s.calls[c].domain);
        CallKeeps(web, s, t, s.calls[c]);
      } else {
        var d := a.domain;
        assert d in s.manifests ==> Stored(s, d)[|Stored(s, d)| - 1] == s.manifests[d];
      }
    }
  }

  lemma {:induction false} CallsHold(web: Web, states: seq<State>, acts: seq<Action>, k: nat)
    requires Run(web, states, acts) && k < |states|
    ensures ManifestsStored(states[k]) && CallsOk(web, states[k])
  {
    if k > 0 {
      CallsHold(web, states, acts, k - 1);
      assert Linked(web, states, acts, k - 1);
      ManifestsStep(web, states[k - 1], acts[k - 1]);
      CallsStep(web, states[k - 1], acts[k - 1]);
    }
  }

  lemma {:induction false} StoredPrefix(web: Web, states: seq<State>, acts: seq<Action>, i: nat, j: nat, d: Domain)
    requires Run(web, states, acts) && i <= j < |states|
    ensures Stored(states[i], d) <= Stored(states[j], d)
    decreases j
  {
    if i < j {
      StoredPrefix(web, states, acts, i, j - 1, d);
      assert Linked(web, states, acts, j - 1);
      StoredGrows(web, states[j - 1], acts[j - 1], d);
    }
  }

  // ---- When a cached manifest is replaced ----

  ghost predicate Misses(s: State, c: nat, d: Domain) {
    c < |s.calls| && s.calls[c].domain == d && s.calls[c].phase.Resolving?
  }

  /** Two calls have missed the manifest of `d` at the same time, and both get one: `e` first, then `c`. */
  ghost predicate MissTogether(states: seq<State>, acts: seq<Action>, d: Domain, c: nat, e: nat, k: nat, m: nat, n: nat) {
    && k <= m < n < |acts| && |states| == |acts| + 1 && c != e
    && Misses(states[k], c, d) && Misses(states[k], e, d)
    && acts[m].ManifestReply? && acts[m].c == e && acts[m].manifest.Some?
    && acts[n].ManifestReply? && acts[n].c == c && acts[n].manifest.Some?
  }

  /** Before the state with index `j`, two misses of `d` overlap. */
  ghost predicate Overlap(states: seq<State>, acts: seq<Action>, d: Domain, j: nat) {
    exists c: nat, e: nat, k: nat, m: nat, n: nat :: MissTogether(states, acts, d, c, e, k, m, n) && n < j
  }

  lemma {:induction false} DomainKept(web: Web, states: seq<State>, acts: seq<Action>, c: nat, i: nat, j: nat)
    requires Run(web, states, acts) && i <= j < |states| && c < |states[i].calls|
    ensures c < |states[j].calls| && states[j].calls[c].domain == states[i].calls[c].domain
    decreases j
  {
    if i < j {
      DomainKept(web, states, acts, c, i, j - 1);
      assert Linked(web, states, acts, j - 1);
      DomainStep(web, states[j - 1], acts[j - 1], c);
    }
  }

  lemma DomainStep(web: Web, s: State, a: Action, c: nat)
    requires Enabled(web, s, a) && c < |s.calls|
    ensures c < |Next(web, s, a).calls| && Next(web, s, a).calls[c].domain == s.calls[c].domain
  {
  }

  /** A reply adds its manifest to those stored for the domain of its call. */
  lemma ReplyStores(web: Web, s: State, a: Action, d: Domain)
    requires Enabled(web, s, a)
    ensures |Stored(Next(web, s, a), d)| ==
            |Stored(s, d)| + (if a.ManifestReply? && a.manifest.Some? && s.calls[a.c].domain == d then 1 else 0)
  {
  }

  lemma OverlapStoresTwo(web: Web, states: seq<State>, acts: seq<Action>, d: Domain, j: nat,
                         c: nat, e: nat, k: nat, m: nat, n: nat)
    requires Run(web, states, acts) && j <= |acts| && MissTogether(states, acts, d, c, e, k, m, n) && n < j
    ensures |Stored(states[j], d)| > 1
  {
    DomainKept(web, states, acts, e, k, m);
    DomainKept(web, states, acts, c, k, n);
    assert Linked(web, states, acts, m) && Linked(web, states, acts, n);
    ReplyStores(web, states[m], acts[m], d);
    ReplyStores(web, states[n], acts[n], d);
    StoredPrefix(web, states, acts, m + 1, n, d);
    StoredPrefix(web, states, acts, n + 1, j, d);
  }

  /** A call that begins once the manifest is cached does not miss it. */
  lemma {:induction false} MissedBefore(web: Web, states: seq<State>, acts: seq<Action>, d: Domain, c: nat, i: nat, n: nat)
    requires Run(web, states, acts) && i <= n < |states| && Misses(states[n], c, d) && Stored(states[i], d) != []
    ensures Misses(states[i], c, d)
    decreases n
  {
    if i < n {
      CachedSince(web, states, acts, d, i, n - 1);
      MissedOneBefore(web, states, acts, d, c, n - 1);
      MissedBefore(web, states, acts, d, c, i, n - 1);
    }
  }

  lemma MissedOneBefore(web: Web, states: seq<State>, acts: seq<Action>, d: Domain, c: nat, k: nat)
    requires Run(web, states, acts) && k < |acts| && Misses(states[k + 1], c, d) && d in states[k].manifests
    ensures Misses(states[k], c, d)
  {
    assert Linked(web, states, acts, k);
    StaysMissed(web, states[k], acts[k], d, c);
  }

  lemma CachedSince(web: Web, states: seq<State>, acts: seq<Action>, d: Domain, i: nat, j: nat)
    requires Run(web, states, acts) && i <= j < |states| && Stored(states[i], d) != []
    ensures d in states[j].manifests
  {
    StoredPrefix(web, states, acts, i, j, d);
    CallsHold(web, states, acts, j);
    assert d in states[j].manifests <==> Stored(states[j], d) != [];
  }

  lemma StaysMissed(web: Web, s: State, a: Action, d: Domain, c: nat)
    requires Enabled(web, s, a) && Misses(Next(web, s, a), c, d) && d in s.manifests
    ensures Misses(s, c, d)
  {
  }

  /** The step at which the first manifest of `d` was stored. */
  lemma {:induction false} FirstStored(web: Web, states: seq<State>, acts: seq<Action>, d: Domain, n: nat) returns (m: nat)
    requires Run(web, states, acts) && n < |states| && Stored(states[n], d) != []
    ensures m < n && Stored(states[m], d) == [] && Stored(states[m + 1], d) != []
    ensures acts[m].ManifestReply? && acts[m].manifest.Some? && Misses(states[m], acts[m].c, d)
  {
    m := n - 1;
    assert Linked(web, states, acts, m);
    ReplyStores(web, states[m], acts[m], d);
    if Stored(states[m], d) != [] {
      m := FirstStored(web, states, acts, d, m);
    }
  }

  lemma {:induction false} TwoStoredOverlap(web: Web, states: seq<State>, acts: seq<Action>, d: Domain, j: nat)
    requires Run(web, states, acts) && j < |states| && |Stored(states[j], d)| > 1
    ensures Overlap(states, acts, d, j)
  {
    var n := j - 1;
    assert Linked(web, states, acts, n);
    ReplyStores(web, states[n], acts[n], d);
    if |Stored(states[n], d)| > 1 {
      TwoStoredOverlap(web, states, acts, d, n);
      var c: nat, e: nat, k: nat, m: nat, l: nat :| MissTogether(states, acts, d, c, e, k, m, l) && l < n;
      assert MissTogether(states, acts, d, c, e, k, m, l) && l < j;
    } else {
      var m := FirstStored(web, states, acts, d, n);
      var c, e := acts[n].c, acts[m].c;
      MissedBefore(web, states, acts, d, c, m + 1, n);
      assert Linked(web, states, acts, m);
      OtherMissed(web, states[m], acts[m], d, c);
      assert MissTogether(states, acts, d, c, e, m, m, n);
    }
  }

  lemma OtherMissed(web: Web, s: State, a: Action, d: Domain, c: nat)
    requires Enabled(web, s, a) && a.ManifestReply? && a.manifest.Some? && Misses(Next(web, s, a), c, d)
    ensures c != a.c && Misses(s, c, d)
  {
  }

  /** More than one manifest is ever stored for a domain exactly where two misses of that domain overlap. */
  lemma OneManifestExactly(web: Web, states: seq<State>, acts: seq<Action>, d: Domain, j: nat)
    requires Run(web, states, acts) && j <= |acts|
    ensures Overlap(states, acts, d, j) <==> |Stored(states[j], d)| > 1
  {
    if Overlap(states, acts, d, j) {
      var c: nat, e: nat, k: nat, m: nat, n: nat :| MissTogether(states, acts, d, c, e, k, m, n) && n < j;
      OverlapStoresTwo(web, states, acts, d, j, c, e, k, m, n);
    } else if |Stored(states[j], d)| > 1 {
      TwoStoredOverlap(web, states, acts, d, j);
    }
  }

  // ---- Agreement with fetching everything anew ----

  /** What a runtime without caches answers: the type and content of the entry chosen from that manifest. */
  ghost function Uncached(web: Web, manifest: Manifest, path: string): Option<(string, bytes)> {
    var e := Chosen(manifest.files, path);
    if e.Some? then Some((e.value.mime, web.blob(e.value.cid))) else None
  }

  /** Where no misses of its domain have overlapped so far, a served call gives the answer of an uncached fetch over the
    manifest first cached for the domain, and its file holds that answer at every later moment at which it exists. */
  lemma ServesUncachedAnswer(web: Web, states: seq<State>, acts: seq<Action>, i: nat, j: nat, c: nat)
    requires CollisionFree(web) && Run(web, states, acts) && i <= j < |states|
    requires c < |states[i].calls| && states[i].calls[c].phase.Served? && !Overlap(states, acts, states[i].calls[c].domain, i)
    ensures var call := states[i].calls[c];
            && |Stored(states[i], call.domain)| == 1 && Stored(states[i], call.domain) <= Stored(states[j], call.domain)
            && Uncached(web, Stored(states[i], call.domain)[0], call.path)
               == Some((call.phase.entry.mime, web.blob(call.phase.entry.cid)))
            && (call.phase.file in states[j].files ==>
                  states[j].files[call.phase.file].data == web.blob(call.phase.entry.cid))
  {
    var call := states[i].calls[c];
    CallsHold(web, states, acts, i);
    assert CallOk(web, states[i], call);
    OneManifestExactly(web, states, acts, call.domain, i);
    StoredPrefix(web, states, acts, i, j, call.domain);
    FilesHoldTheirBlobs(web, states, acts, j);
  }

  /** Likewise a call ends in "not found" only where the uncached fetch does. */
  lemma NotFoundOnlyWhereUncachedIs(web: Web, states: seq<State>, acts: seq<Action>, i: nat, c: nat)
    requires Run(web, states, acts) && i < |states| && c < |states[i].calls|
    requires states[i].calls[c].phase.NotFound? && !Overlap(states, acts, states[i].calls[c].domain, i)
    ensures var call := states[i].calls[c];
            |Stored(states[i], call.domain)| == 1 && Uncached(web, Stored(states[i], call.domain)[0], call.path) == None
  {
    var call := states[i].calls[c];
    CallsHold(web, states, acts, i);
    assert CallOk(web, states[i], call);
    OneManifestExactly(web, states, acts, call.domain, i);
  }

  /** A reply that brings the call nothing, or a blob that could not be written. */
  predicate Disappoints(a: Action, c: nat) {
    (a.ManifestReply? && a.c == c && a.manifest.None?) || (a.BlobReply? && a.c == c && (a.data.None? || !a.writeOk))
  }

  ghost predicate Disappointed(acts: seq<Action>, c: nat, i: nat) {
    exists k :: 0 <= k < i && k < |acts| && Disappoints(acts[k], c)
  }

  /** Any other failure of a call is one of its own requests or writes, and every such failure ends it. */
  lemma {:induction false} FailsExactly(web: Web, states: seq<State>, acts: seq<Action>, i: nat, c: nat)
    requires Run(web, states, acts) && i < |states|
    ensures c < |states[i].calls| && states[i].calls[c].phase.Failed? <==> Disappointed(acts, c, i)
  {
    if i > 0 {
      FailsExactly(web, states, acts, i - 1, c);
      assert Linked(web, states, acts, i - 1);
      FailStep(web, states[i - 1], acts[i - 1], c);
      assert Disappointed(acts, c, i) <==> Disappointed(acts, c, i - 1) || Disappoints(acts[i - 1], c);
    }
  }

  lemma FailStep(web: Web, s: State, a: Action, c: nat)
    requires Enabled(web, s, a)
    ensures (c < |Next(web, s, a).calls| && Next(web, s, a).calls[c].phase.Failed?)
            <==> (c < |s.calls| && s.calls[c].phase.Failed?) || Disappoints(a, c)
  {
  }

  /** With overlapping misses the last reply wins: a call that begins after both is answered by a manifest that
    was not the first one cached. */
  lemma OverlappingMissesReplace(web: Web, first: Manifest, second: Manifest)
    returns (states: seq<State>, acts: seq<Action>)
    ensures Run(web, states, acts) && |states| == 6
    ensures Stored(states[3], "d") == [first] && Cached(states[3].manifests, "d") == Some(first)
    ensures |states[5].calls| == 3 && states[5].calls[2] == Call("d", "/", Opening(second))
  {
    var s0 := State(map[], map[], [], map[]);
    var a0, a1 := Begin("d", "/"), Begin("d", "/");
    var a2, a3 := ManifestReply(0, Some(first)), ManifestReply(1, Some(second));
    var s1 := Next(web, s0, a0);
    var s2 := Next(web, s1, a1);
    var s3 := Next(web, s2, a2);
    var s4 := Next(web, s3, a3);
    var s5 := Next(web, s4, a0);
    states, acts := [s0, s1, s2, s3, s4, s5], [a0, a1, a2, a3, a0];
    assert Linked(web, states, acts, 0) && Linked(web, states, acts, 1) && Linked(web, states, acts, 2);
    assert Linked(web, states, acts, 3) && Linked(web, states, acts, 4);
  }
}
