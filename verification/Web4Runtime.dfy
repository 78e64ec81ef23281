/** ios/Web4Runtime.swift over its two caches, ios/Web4ManifestCache.swift and ios/Web4BlobCache.swift. */
module Web4Runtime {
  import opened Bytes
  import opened Web4BlobCache

  type Domain = string

  datatype Entry = Entry(path: string, cid: Cid, mime: string)

  datatype Manifest = Manifest(
    domain: Option<string>,
    version: Option<string>,
    previousManifest: Option<string>,
    spa: Option<bool>,
    spaFallback: Option<string>,
    files: seq<Entry>)

  datatype Resolve = Resolve(manifestCid: Option<Cid>, spa: Option<bool>, spaFallback: Option<string>)

  // ---- Which entry answers a path ----

  /** The paths a request may be answered by, the preferred ones first. */
  function Candidates(path: string): (wanted: seq<string>)
    ensures wanted != []
  {
    var normalized := if path == "/" || path == "" then "/index.html" else path;
    [normalized] + (if normalized[0] == '/' then [normalized[1..]] else []) + ["/index.html", "index.html"]
  }

  function First(files: seq<Entry>, path: string): (r: Option<Entry>)
    ensures r.Some? ==> r.value in files && r.value.path == path
    ensures r.None? <==> forall i :: 0 <= i < |files| ==> files[i].path != path
  {
    if files == [] then None else if files[0].path == path then Some(files[0]) else First(files[1..], path)
  }

  function FirstOf(files: seq<Entry>, wanted: seq<string>): Option<Entry> {
    if wanted == [] then None
    else if First(files, wanted[0]).Some? then First(files, wanted[0])
    else FirstOf(files, wanted[1..])
  }

  function Chosen(files: seq<Entry>, path: string): Option<Entry> {
    FirstOf(files, Candidates(path))
  }

  ghost predicate Lists(files: seq<Entry>, path: string) {
    exists i :: 0 <= i < |files| && files[i].path == path
  }

  /** `e` is the earliest entry for the most preferred path that the manifest lists at all. */
  ghost predicate Preferred(files: seq<Entry>, wanted: seq<string>, e: Entry, c: nat, i: nat) {
    && c < |wanted| && i < |files| && files[i] == e && e.path == wanted[c]
    && (forall k :: 0 <= k < c ==> !Lists(files, wanted[k]))
    && (forall j :: 0 <= j < i ==> files[j].path != e.path)
  }

  lemma {:induction false} FirstIsEarliest(files: seq<Entry>, path: string) returns (i: nat)
    requires First(files, path).Some?
    ensures i < |files| && files[i] == First(files, path).value && files[i].path == path
    ensures forall j :: 0 <= j < i ==> files[j].path != path
  {
    if files[0].path == path {
      i := 0;
    } else {
      var k := FirstIsEarliest(files[1..], path);
      i := k + 1;
      forall j | 0 <= j < i ensures files[j].path != path {
        if j > 0 {
          assert files[1..][j - 1] == files[j];
        }
      }
    }
  }

  lemma {:induction false} FirstOfPrefers(files: seq<Entry>, wanted: seq<string>) returns (c: nat, i: nat)
    ensures FirstOf(files, wanted).None? ==> forall k :: 0 <= k < |wanted| ==> !Lists(files, wanted[k])
    ensures FirstOf(files, wanted).Some? ==> Preferred(files, wanted, FirstOf(files, wanted).value, c, i)
  {
    c, i := 0, 0;
    if wanted == [] {
    } else if First(files, wanted[0]).Some? {
      i := FirstIsEarliest(files, wanted[0]);
    } else {
      c, i := FirstOfPrefers(files, wanted[1..]);
      c := c + 1;
      forall k | 0 <= k < |wanted| && (FirstOf(files, wanted).None? || k < c) ensures !Lists(files, wanted[k]) {
        if k > 0 {
          assert wanted[k] == wanted[1..][k - 1];
        }
      }
    }
  }

  /** A path goes unanswered exactly where the manifest lists none of its candidates; else the answer is
    the earliest entry of the most preferred candidate listed. */
  lemma ChosenExactly(files: seq<Entry>, path: string)
    ensures Chosen(files, path).None? <==> forall k :: 0 <= k < |Candidates(path)| ==> !Lists(files, Candidates(path)[k])
    ensures Chosen(files, path).Some? ==>
              exists c: nat, i: nat :: Preferred(files, Candidates(path), Chosen(files, path).value, c, i)
  {
    var c, i := FirstOfPrefers(files, Candidates(path));
    if Chosen(files, path).Some? {
      assert Preferred(files, Candidates(path), Chosen(files, path).value, c, i);
      assert Lists(files, Candidates(path)[c]);
    }
  }

  /** The earliest entry with this path. */
  ghost predicate Earliest(files: seq<Entry>, path: string, e: Entry) {
    exists i :: 0 <= i < |files| && files[i] == e && e.path == path && forall j :: 0 <= j < i ==> files[j].path != path
  }

  lemma FirstExactly(files: seq<Entry>, path: string)
    ensures First(files, path).Some? <==> Lists(files, path)
    ensures First(files, path).Some? ==> Earliest(files, path, First(files, path).value)
  {
    if First(files, path).Some? {
      var i := FirstIsEarliest(files, path);
      assert files[i].path == path;
    } else {
      assert !Lists(files, path);
    }
  }

  /** The page a request for the root stands for, and any other path itself. */
  function Asked(path: string): (p: string)
    ensures path == "/" || path == "" ==> p == "/index.html"
    ensures path != "/" && path != "" ==> p == path
  {
    if path == "/" || path == "" then "/index.html" else path
  }

  /** The answer by the path itself: the earliest entry that has it; where there is none and it begins with a slash, the earliest
    that has it without the slash; else the earliest "/index.html", else the earliest "index.html"; none where the manifest
    lists none of these. */
  lemma ChosenByPath(files: seq<Entry>, path: string)
    ensures var p := Asked(path);
            var chosen := Chosen(files, path);
            var bare := p[0] == '/' && Lists(files, p[1..]);
            && (Lists(files, p) ==> chosen.Some? && Earliest(files, p, chosen.value))
            && (!Lists(files, p) && bare ==> chosen.Some? && Earliest(files, p[1..], chosen.value))
            && (!Lists(files, p) && !bare && Lists(files, "/index.html") ==>
                  chosen.Some? && Earliest(files, "/index.html", chosen.value))
            && (!Lists(files, p) && !bare && !Lists(files, "/index.html") && Lists(files, "index.html") ==>
                  chosen.Some? && Earliest(files, "index.html", chosen.value))
            && (chosen.None? <==> !Lists(files, p) && !bare && !Lists(files, "/index.html") && !Lists(files, "index.html"))
  {
    var p := Asked(path);
    var last := ["/index.html", "index.html"];
    var second := if p[0] == '/' then [p[1..]] else [];
    assert Candidates(path) == [p] + (second + last);
    FirstOfStep(files, p, second + last);
    FirstExactly(files, p);
    if p[0] == '/' {
      FirstOfStep(files, p[1..], last);
      FirstExactly(files, p[1..]);
    } else {
      assert second + last == last;
    }
    LastResorts(files);
  }

  lemma LastResorts(files: seq<Entry>)
    ensures var r := FirstOf(files, ["/index.html", "index.html"]);
            && (Lists(files, "/index.html") ==> r.Some? && Earliest(files, "/index.html", r.value))
            && (!Lists(files, "/index.html") && Lists(files, "index.html") ==> r.Some? && Earliest(files, "index.html", r.value))
            && (r.None? <==> !Lists(files, "/index.html") && !Lists(files, "index.html"))
  {
    assert ["/index.html", "index.html"] == ["/index.html"] + ["index.html"] && ["index.html"] == ["index.html"] + [];
    FirstOfStep(files, "/index.html", ["index.html"]);
    FirstOfStep(files, "index.html", []);
    FirstExactly(files, "/index.html");
    FirstExactly(files, "index.html");
  }

  method FindFirst(files: seq<Entry>, path: string) returns (r: Option<Entry>)
    ensures r == First(files, path)
  {
    var i := 0;
    while i < |files|
      invariant i <= |files|
      invariant First(files, path) == First(files[i..], path)
    {
      if files[i].path == path { return Some(files[i]); }
      assert files[i..][1..] == files[i + 1..];
      i := i + 1;
    }
    r := None;
  }

  lemma FirstOfStep(files: seq<Entry>, p: string, rest: seq<string>)
    ensures FirstOf(files, [p] + rest) == if First(files, p).Some? then First(files, p) else FirstOf(files, rest)
  {
    assert ([p] + rest)[1..] == rest;
  }

  /** The chain of fallbacks of `resolveFile`. */
  method ChooseEntry(files: seq<Entry>, path: string) returns (fileEntry: Option<Entry>)
    ensures fileEntry == Chosen(files, path)
  {
    var normalizedPath := if path == "/" || path == "" then "/index.html" else path;
    ghost var last := ["/index.html", "index.html"];
    ghost var second := if normalizedPath[0] == '/' then [normalizedPath[1..]] else [];
    assert Candidates(path) == [normalizedPath] + (second + last);
    FirstOfStep(files, normalizedPath, second + last);
    fileEntry := FindFirst(files, normalizedPath);
    if fileEntry.None? && normalizedPath[0] == '/' {
      FirstOfStep(files, normalizedPath[1..], last);
      fileEntry := FindFirst(files, normalizedPath[1..]);
    }
    if fileEntry.None? {
      assert second == [] ==> second + last == last;
      FirstOfStep(files, "/index.html", ["index.html"]);
      FirstOfStep(files, "index.html", []);
      assert ["index.html"] == ["index.html"] + [];
      fileEntry := FindFirst(files, "/index.html");
      if fileEntry.None? {
        fileEntry := FindFirst(files, "index.html");
      }
    }
  }

  // ---- The runtime ----

  /** The manifest a successful miss stores: fetched by content id, with the resolver's two flags. */
  function Hydrated(resolve: Option<Resolve>, fetch: Cid -> Option<Manifest>): Option<Manifest> {
    if resolve.None? || resolve.value.manifestCid.None? then None
    else if fetch(resolve.value.manifestCid.value).None? then None
    else Some(fetch(resolve.value.manifestCid.value).value.(spa := resolve.value.spa,
                                                           spaFallback := resolve.value.spaFallback))
  }

  /** There is a manifest to store exactly where the resolver answers with a content id under which one is found; it is that
    manifest, but for the two flags, which are the resolver's. */
  lemma HydratedExactly(resolve: Option<Resolve>, fetch: Cid -> Option<Manifest>)
    ensures Hydrated(resolve, fetch).Some? <==>
            resolve.Some? && resolve.value.manifestCid.Some? && fetch(resolve.value.manifestCid.value).Some?
    ensures Hydrated(resolve, fetch).Some? ==>
              var m, found := Hydrated(resolve, fetch).value, fetch(resolve.value.manifestCid.value).value;
              && m.domain == found.domain && m.version == found.version && m.previousManifest == found.previousManifest
              && m.files == found.files && m.spa == resolve.value.spa && m.spaFallback == resolve.value.spaFallback
  {
  }

  function Touched(files: Directory, f: FileName, now: int): Directory
    requires f in files
  {
    files[f := files[f].(modified := now)]
  }

  function Cached(manifests: map<Domain, Manifest>, domain: Domain): Option<Manifest> {
    if domain in manifests then Some(manifests[domain]) else None
  }

  class Runtime {
    var manifests: map<Domain, Manifest>
    const blobCache: BlobCache

    constructor (blobCache: BlobCache)
      ensures manifests == map[] && this.blobCache == blobCache
    {
      manifests := map[];
      this.blobCache := blobCache;
    }

    method ResolveManifest(domain: Domain, resolve: Option<Resolve>, fetchManifest: Cid -> Option<Manifest>)
      returns (r: Option<Manifest>)
      modifies this`manifests
      ensures domain in old(manifests) ==> r == Some(old(manifests)[domain]) && manifests == old(manifests)
      ensures domain !in old(manifests) ==>
                r == Hydrated(resolve, fetchManifest) && manifests - {domain} == old(manifests)
                && (domain in manifests <==> r.Some?) && (r.Some? ==> manifests[domain] == r.value)
    {
      if domain in manifests { return Some(manifests[domain]); }
      if resolve.None? || resolve.value.manifestCid.None? { return None; }
      var manifest := fetchManifest(resolve.value.manifestCid.value);
      if manifest.None? { return None; }
      var hydrated := manifest.value.(spa := resolve.value.spa, spaFallback := resolve.value.spaFallback);
      manifests := manifests[domain := hydrated];
      r := Some(hydrated);
    }

    /** One call with no other in between; Web4RuntimeRuns interleaves its sections with others. */
    method ResolveFile(domain: Domain, path: string, resolve: Option<Resolve>,
                       fetchManifest: Cid -> Option<Manifest>, fetchBlob: Cid -> Option<bytes>, now: int, writeOk: bool)
      returns (r: Option<(string, FileName)>, ghost names: seq<FileName>, ghost n: nat)
      modifies this`manifests, blobCache`files
      ensures domain in old(manifests) ==> manifests == old(manifests)
      ensures domain !in old(manifests) ==>
                manifests - {domain} == old(manifests) && Cached(manifests, domain) == Hydrated(resolve, fetchManifest)
      ensures var entry := if domain in manifests then Chosen(manifests[domain].files, path) else None;
              AnsweredBy(old(blobCache.files), entry, fetchBlob, now, writeOk, r, names, n, blobCache.files)
    {
      names, n := [], 0;
      var manifest := ResolveManifest(domain, resolve, fetchManifest);
      if manifest.None? { return None, names, n; }
      var entry := ChooseEntry(manifest.value.files, path);
      if entry.None? { return None, names, n; }
      var cached := blobCache.Get(entry.value.cid, now);
      if cached.Some? { return Some((entry.value.mime, cached.value)), names, n; }
      var data := fetchBlob(entry.value.cid);
      if data.None? { return None, names, n; }
      var file: Option<FileName>;
      file, names, n := blobCache.Put(entry.value.cid, data.value, now, writeOk);
      if file.None? { return None, names, n; }
      r := Some((entry.value.mime, file.value));
    }

    /** What a call answers for the entry it chose, and what it leaves in the directory: a file already there
      is used and touched; otherwise the fetched blob is written and the directory brought to its bound. */
    ghost predicate AnsweredBy(files: Directory, entry: Option<Entry>, fetchBlob: Cid -> Option<bytes>, now: int,
                               writeOk: bool, r: Option<(string, FileName)>, names: seq<FileName>, n: nat, after: Directory)
      reads blobCache
    {
      if entry.None? then r == None && after == files
      else
        var f := blobCache.fileName(entry.value.cid);
        var blob := fetchBlob(entry.value.cid);
        if f in files then r == Some((entry.value.mime, f)) && after == Touched(files, f, now)
        else if blob.None? || !writeOk then r == None && after == files
        else
          var written := files[f := File(blob.value, now)];
          && r == Some((entry.value.mime, f))
          && Evicted(written, names, n, blobCache.maxBytes) && after == Without(written, names[..n])
    }
  }
}
