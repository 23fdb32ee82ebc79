/** `export` of `sync/export.py`: where links and READMEs go in the repository, and the manifest of what is written. */
module ThreatExport {
  import opened Wrappers
  import opened ThreatPaths
  import opened Threatlib

  /** The directory of a threat's files. */
  function BasePath(name: string, threat: Threat): string {
    if threat.flat then threat.category else threat.category + "/" + name
  }

  function LinkPath(threats: Threats, k: Key): string
    requires k.threat in threats
  {
    BasePath(k.threat, threats[k.threat]) + "/" + k.path
  }

  function ReadmePath(name: string, threat: Threat): string {
    BasePath(name, threat) + "/README.md"
  }

  lemma SegmentsOfBase(name: string, threat: Threat, path: string)
    requires IsName(name) && threat.category in CATEGORIES
    ensures Segments(BasePath(name, threat) + "/" + path) ==
      [threat.category] + (if threat.flat then [] else [name]) + Segments(path)
  {
    var category := threat.category;
    assert IsSegment(category) by { CategoriesAreSegments(category); }
    assert IsSegment(name);
    if threat.flat {
      SegmentsOfConcat(category, path);
      assert [category] + [] == [category];
    } else {
      assert category + "/" + name + "/" + path == category + "/" + (name + "/" + path);
      SegmentsOfConcat(category, name + "/" + path);
      SegmentsOfConcat(name, path);
      assert [category] + [name] + Segments(path) == [category] + ([name] + Segments(path));
    }
  }

  /**
   A link goes below the directory of its category, and below that of its threat if it has one; no segment of its path
   is empty, leads elsewhere or is the repository's own directory.
   */
  lemma LinkSegments(threats: Threats, links: Links, k: Key)
    requires Sound(threats, links) && k in links
    ensures var threat, segs := threats[k.threat], Segments(LinkPath(threats, k));
      && segs == [threat.category] + (if threat.flat then [] else [k.threat]) + Segments(k.path)
      && forall s :: s in segs ==> s != "" && s != "." && s != ".." && !IsGit(s)
  {
    hide IsCleanPath, Segments, LayoutOk, Lower;
    SegmentsOfBase(k.threat, threats[k.threat], k.path);
    LowerIsGit(k.threat);
    assert IsCleanPath(k.path);
    CategoriesAreClean(threats[k.threat].category);
    CleanSegments(k.path);
  }

  lemma CleanSegments(path: string)
    requires IsCleanPath(path)
    ensures forall s :: s in Segments(path) ==> s != "" && s != "." && s != ".." && !IsGit(s)
  {}

  lemma CategoriesAreClean(c: string)
    requires c in CATEGORIES
    ensures c != "" && c != "." && c != ".." && !IsGit(c)
  {}

  lemma CategoriesAreSegments(c: string)
    requires c in CATEGORIES
    ensures '/' !in c
  {}

  /** Different links go to different paths. */
  lemma LinkPathsDiffer(threats: Threats, links: Links, k: Key, l: Key)
    requires Sound(threats, links) && k in links && l in links && LinkPath(threats, k) == LinkPath(threats, l)
    ensures k == l
  {
    hide IsName, IsCleanPath, Stem;
    var s, t := threats[k.threat], threats[l.threat];
    SegmentsOfBase(k.threat, s, k.path);
    SegmentsOfBase(l.threat, t, l.path);
    JoinOfSegments(k.path);
    JoinOfSegments(l.path);
    var a, b := Segments(LinkPath(threats, k)), Segments(LinkPath(threats, l));
    if s.flat {
      SegmentsOfOne(k.path);
      assert |a| == 2;
    }
    if t.flat {
      SegmentsOfOne(l.path);
      assert |b| == 2;
    }
    if s.flat {
      assert a[1] == k.path && b[1] == l.path;
    } else {
      assert a[1] == k.threat && b[1] == l.threat && a[2..] == Segments(k.path) && b[2..] == Segments(l.path);
    }
  }

  /** No sample is written where a README is. */
  lemma SamplesAreNoReadmes(threats: Threats, links: Links, k: Key, name: string)
    requires Sound(threats, links) && k in links && name in threats && !threats[name].flat
    ensures LinkPath(threats, k) != ReadmePath(name, threats[name])
  {
    hide IsName, IsCleanPath, Stem, Segments, JoinSegments, BasePath;
    var s, t := threats[k.threat], threats[name];
    SegmentsOfBase(k.threat, s, k.path);
    SegmentsOfBase(name, t, "README.md");
    assert IsSegment("README.md");
    SegmentsOfOne("README.md");
    assert BasePath(name, t) + "/" + "README.md" == ReadmePath(name, t) by { JoinReadme(name, t); }
    JoinOfSegments(k.path);
    var a, b := Segments(LinkPath(threats, k)), Segments(ReadmePath(name, t));
    assert b == [t.category, name, "README.md"];
    if s.flat {
      SegmentsOfOne(k.path);
      assert |a| == 2;
    } else {
      assert a[1] == k.threat && a[2..] == Segments(k.path);
      OneSegment("README.md");
      assert a == b ==> Segments(k.path) == ["README.md"];
    }
  }

  lemma JoinReadme(name: string, threat: Threat)
    ensures BasePath(name, threat) + "/" + "README.md" == ReadmePath(name, threat)
  {
    assert "/" + "README.md" == "/README.md";
  }

  /** What is written: the hashes of the files under their paths, and of the READMEs under their threats. */
  datatype Manifest = Manifest(files: map<string, string>, readmes: map<string, string>)

  /** The manifest holds exactly the links, each with its own hash. */
  ghost predicate Lists(m: map<string, string>, threats: Threats, links: Links, keys: set<Key>,
      hash: Option<ObjectId> -> string) {
    && keys <= links.Keys && (forall k :: k in keys ==> k.threat in threats)
    && (forall k :: k in keys ==> LinkPath(threats, k) in m && m[LinkPath(threats, k)] == hash(links[k]))
    && (forall p :: p in m ==> exists k :: k in keys && LinkPath(threats, k) == p)
  }

  predicate HasReadme(threats: Threats, t: string) {
    t in threats && !threats[t].flat && threats[t].readme.Some?
  }

  /** The manifest holds exactly the READMEs of the threats in `names`, each with its own hash. */
  ghost predicate ListsReadmes(m: map<string, string>, threats: Threats, names: set<string>, hash: string -> string) {
    && (forall t :: t in names && HasReadme(threats, t) ==>
          BasePath(t, threats[t]) in m && m[BasePath(t, threats[t])] == hash(threats[t].readme.value))
    && (forall p :: p in m ==> exists t :: t in names && HasReadme(threats, t) && BasePath(t, threats[t]) == p)
  }

  /** Threats that are directories have different directories. */
  lemma DirectoriesDiffer(threats: Threats, t: string, u: string)
    requires t in threats && u in threats && !threats[t].flat && !threats[u].flat
    requires IsName(t) && IsName(u) && threats[t].category in CATEGORIES && threats[u].category in CATEGORIES
    requires BasePath(t, threats[t]) == BasePath(u, threats[u])
    ensures t == u
  {
    hide Segments;
    CategoriesAreSegments(threats[t].category);
    CategoriesAreSegments(threats[u].category);
    SegmentsOfConcat(threats[t].category, t);
    SegmentsOfConcat(threats[u].category, u);
    SegmentsOfOne(t);
    SegmentsOfOne(u);
    assert Segments(BasePath(t, threats[t])) == [threats[t].category, t];
    assert Segments(BasePath(u, threats[u])) == [threats[u].category, u];
  }

  function LinksOfThreats(links: Links, names: set<string>): set<Key> {
    set k | k in links && k.threat in names
  }

  /** The loops of `export`; `hash` is the hash of an object's content, `readmeHash` that of a text. */
  method Export(library: Library, hash: Option<ObjectId> -> string, readmeHash: string -> string)
    returns (manifest: Manifest, filesWritten: nat, readmesWritten: nat)
    requires library.Valid()
    ensures Lists(manifest.files, library.threats, library.links, library.links.Keys, hash)
    ensures filesWritten == |library.links| == |manifest.files|
    ensures ListsReadmes(manifest.readmes, library.threats, library.threats.Keys, readmeHash)
    ensures readmesWritten == |manifest.readmes|
  {
    hide Lists, ListsReadmes, HasReadme, LinksOfThreats, LinksOfThreat, Sound, Mirrors, BasePath;
    var threats, links := library.threats, library.links;
    var files, readmes: map<string, string> := map[], map[];
    filesWritten, readmesWritten := 0, 0;
    ghost var done: set<string> := {};
    var todo := threats.Keys;
    NothingListed(threats, links, hash, readmeHash);
    while todo != {}
      invariant todo <= threats.Keys && done == threats.Keys - todo
      invariant Lists(files, threats, links, LinksOfThreats(links, done), hash)
      invariant filesWritten == |LinksOfThreats(links, done)| == |files|
      invariant ListsReadmes(readmes, threats, done, readmeHash) && readmesWritten == |readmes|
    {
      var name :| name in todo;
      NextThreat(threats, links, done, name);
      files, filesWritten := WriteLinks(threats, links, name, files, filesWritten, LinksOfThreats(links, done), hash);
      readmes, readmesWritten := WriteReadme(threats, links, name, readmes, readmesWritten, done, readmeHash);
      todo, done := todo - {name}, done + {name};
    }
    assert done == threats.Keys;
    AllLinks(threats, links);
    manifest := Manifest(files, readmes);
  }

  method WriteReadme(threats: Threats, ghost links: Links, name: string, was: map<string, string>, written: nat,
      ghost done: set<string>,
                     readmeHash: string -> string) returns (readmes: map<string, string>, count: nat)
    requires Sound(threats, links) && done <= threats.Keys && name in threats && name !in done
    requires ListsReadmes(was, threats, done, readmeHash) && written == |was|
    ensures ListsReadmes(readmes, threats, done + {name}, readmeHash) && count == |readmes|
  {
    hide Sound, ListsReadmes, BasePath;
    var threat := threats[name];
    readmes, count := was, written;
    if !threat.flat && threat.readme.Some? {
      OneMoreReadme(was, threats, links, done, name, readmeHash);
      readmes := readmes[BasePath(name, threat) := readmeHash(threat.readme.value)];
      count := count + 1;
    } else {
      NoReadme(was, threats, done, name, readmeHash);
    }
  }

  lemma OneMoreReadme(was: map<string, string>, threats: Threats, links: Links, done: set<string>, name: string,
      hash: string -> string)
    requires Sound(threats, links) && done <= threats.Keys && HasReadme(threats, name) && name !in done
      && ListsReadmes(was, threats, done, hash)
    ensures BasePath(name, threats[name]) !in was
    ensures ListsReadmes(was[BasePath(name, threats[name]) := hash(threats[name].readme.value)], threats, done + {name},
      hash)
  {
    hide BasePath, IsName, Sound;
    ThreatIsSound(threats, links, name);
    forall t | t in done && HasReadme(threats, t) ensures BasePath(t, threats[t]) != BasePath(name, threats[name]) {
      ThreatIsSound(threats, links, t);
      if BasePath(t, threats[t]) == BasePath(name, threats[name]) {
        DirectoriesDiffer(threats, t, name);
      }
    }
  }

  lemma NoReadme(was: map<string, string>, threats: Threats, done: set<string>, name: string, hash: string -> string)
    requires !HasReadme(threats, name) && ListsReadmes(was, threats, done, hash)
    ensures ListsReadmes(was, threats, done + {name}, hash)
  {
    hide BasePath;
  }

  lemma ThreatIsSound(threats: Threats, links: Links, t: string)
    requires Sound(threats, links) && t in threats
    ensures IsName(t) && threats[t].category in CATEGORIES
  {}

  lemma NothingListed(threats: Threats, links: Links, hash: Option<ObjectId> -> string, readmeHash: string -> string)
    ensures LinksOfThreats(links, {}) == {} && Lists(map[], threats, links, {}, hash)
      && ListsReadmes(map[], threats, {}, readmeHash)
  {}

  lemma NextThreat(threats: Threats, links: Links, done: set<string>, name: string)
    requires name in threats && name !in done
    ensures LinksOfThreats(links, done + {name}) == LinksOfThreats(links, done) + LinksOfThreat(links, name)
    ensures LinksOfThreats(links, done) !! LinksOfThreat(links, name)
  {}

  lemma AllLinks(threats: Threats, links: Links)
    requires Sound(threats, links)
    ensures LinksOfThreats(links, threats.Keys) == links.Keys && |links| == |links.Keys|
  {}

  /** The inner loop: the links of one threat. */
  method WriteLinks(threats: Threats, links: Links, name: string, was: map<string, string>, written: nat,
      ghost before: set<Key>,
                    hash: Option<ObjectId> -> string) returns (files: map<string, string>, count: nat)
    requires Sound(threats, links) && name in threats && Lists(was, threats, links, before, hash)
    requires before !! LinksOfThreat(links, name) && written == |before| == |was|
    ensures Lists(files, threats, links, before + LinksOfThreat(links, name), hash)
    ensures count == |before + LinksOfThreat(links, name)| == |files|
  {
    hide Lists, Sound, LinkPath;
    files, count := was, written;
    ghost var done := before;
    var todo := LinksOfThreat(links, name);
    while todo != {}
      invariant todo <= LinksOfThreat(links, name) && done !! todo && done + todo == before + LinksOfThreat(links, name)
      invariant Lists(files, threats, links, done, hash) && count == |done| == |files|
    {
      var k :| k in todo;
      ThreatOfLink(threats, links, k);
      OneMoreFile(files, threats, links, done, k, hash);
      files := files[LinkPath(threats, k) := hash(links[k])];
      count, done, todo := count + 1, done + {k}, todo - {k};
    }
  }

  lemma OneMoreFile(files: map<string, string>, threats: Threats, links: Links, done: set<Key>, k: Key,
      hash: Option<ObjectId> -> string)
    requires Sound(threats, links) && Lists(files, threats, links, done, hash) && k in links && k !in done
    ensures LinkPath(threats, k) !in files
    ensures Lists(files[LinkPath(threats, k) := hash(links[k])], threats, links, done + {k}, hash)
  {
    hide LinkPath, Sound;
    assert k.threat in threats by { ThreatOfLink(threats, links, k); }
    if LinkPath(threats, k) in files {
      var l :| l in done && LinkPath(threats, l) == LinkPath(threats, k);
      LinkPathsDiffer(threats, links, k, l);
    }
  }

  lemma ThreatOfLink(threats: Threats, links: Links, k: Key)
    requires Sound(threats, links) && k in links
    ensures k.threat in threats
  {}
}
