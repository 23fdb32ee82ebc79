/**
 The threat library: `service.py` with the mirror of `mirror.py`. Threats link files under paths; the tags and
 attributes of a file are to say which threats link it.
 */
module Threatlib {
  import opened Wrappers
  import opened ThreatPaths

  datatype Threat = Threat(category: string, flat: bool, readme: Option<string>)

  /** The primary key of a link. */
  datatype Key = Key(threat: string, path: string)

  type ObjectId = nat
  type Threats = map<string, Threat>
  /** A link without an object stands for an empty file. */
  type Links = map<Key, Option<ObjectId>>

  /** The tags of objects, or their `jpop_threat_name` attributes. */
  type Marks = map<ObjectId, set<string>>

  /** The threats that link a file. */
  function ThreatsOf(links: Links, o: ObjectId): set<string> {
    set k | k in links && links[k] == Some(o) :: k.threat
  }

  function CategoriesOf(threats: Threats, links: Links, o: ObjectId): set<string> {
    set t | t in ThreatsOf(links, o) && t in threats :: threats[t].category
  }

  function LinksOfThreat(links: Links, t: string): set<Key> {
    set k | k in links && k.threat == t
  }

  /** The objects a threat links. */
  function ObjectsOf(links: Links, t: string): set<ObjectId> {
    set k | k in links && k.threat == t && links[k].Some? :: links[k].value
  }

  function Entry(m: Marks, o: ObjectId): set<string> {
    if o in m then m[o] else {}
  }

  /**
   The tags and names of every object say exactly which threats link it; tags that are no categories do not
   matter.
   */
  ghost predicate Mirrors(threats: Threats, links: Links, tags: Marks, names: Marks) {
    forall o: ObjectId :: MirrorOf(threats, links, tags, names, o)
  }

  ghost predicate MirrorOf(threats: Threats, links: Links, tags: Marks, names: Marks, o: ObjectId) {
    Entry(tags, o) * CATEGORIES == CategoriesOf(threats, links, o) && Entry(names, o) == ThreatsOf(links, o)
  }

  /** `path.rfind(c)` */
  function LastIndex(path: string, c: char): (i: int)
    ensures -1 <= i < |path| && (i >= 0 ==> path[i] == c)
    ensures forall j :: i < j < |path| ==> path[j] != c
  {
    if path == "" then -1
    else if path[|path| - 1] == c then |path| - 1
    else LastIndex(path[..|path| - 1], c)
  }

  /**
   `posixpath.splitext(path)[0]`: the path up to its last dot, unless its last segment has only dots in front of
   that.
   */
  function Stem(path: string): string {
    var sep, dot := LastIndex(path, '/'), LastIndex(path, '.');
    if dot > sep && exists i :: sep < i < dot && path[i] != '.' then path[..dot] else path
  }

  /** `_check_layout` */
  predicate LayoutOk(name: string, threat: Threat, path: string) {
    if threat.flat then '/' !in path && Stem(path) == name else path != "README.md"
  }

  datatype Change = Refused(error: string) | Unchanged | Changed

  /** The tables, and the tags and `jpop_threat_name` attributes of objects. */
  class Library {
    var threats: Threats
    var links: Links
    var tags: Marks
    var names: Marks

    constructor ()
      ensures Valid() && threats == map[] && links == map[]
    {
      threats, links, tags, names := map[], map[], map[], map[];
      new;
      forall o: ObjectId ensures MirrorOf(threats, links, tags, names, o) {
        assert ThreatsOf(links, o) == {} && CategoriesOf(threats, links, o) == {};
      }
    }

    ghost predicate Valid()
      reads this
    {
      Mirrors(threats, links, tags, names) && Sound(threats, links)
    }

    function Tables(): Catalog
      reads this
    {
      Catalog(threats, links)
    }

    /** One request. */
    method ServeOne(r: Request)
      requires Valid()
      modifies this
      ensures Valid() && SameOtherTags(old(tags), tags)
      ensures Tables() == Served(old(Tables()), r)
    {
      hide LinkAnswer, LinksOfThreat, IsName, Sound, Mirrors, OtherTags;
      if r.Create? {
        var _ := CreateThreat(r.name, r.category, r.readme, r.flat);
      } else if r.name in threats {
        match r
        case Link(name, file, path) => var _ := LinkSample(name, file, path);
        case Unlink(name, path) => var _ := UnlinkSample(name, path);
        case Move(name, category) => var _ := SetCategory(name, category);
        case Describe(name, readme) => SetReadme(name, readme);
        case Delete(name) => DeleteThreat(name);
      }
    }

    /** `Object.add_tag` */
    method AddTag(o: ObjectId, tag: string)
      modifies this`tags
      ensures tags == old(tags)[o := old(Entry(tags, o)) + {tag}]
    {
      tags := tags[o := Entry(tags, o) + {tag}];
    }

    /** `Object.remove_tag` */
    method RemoveTag(o: ObjectId, tag: string)
      modifies this`tags
      ensures tags == old(tags)[o := old(Entry(tags, o)) - {tag}]
    {
      tags := tags[o := Entry(tags, o) - {tag}];
    }

    /** `apply_mirror` */
    method ApplyMirror(file: Option<ObjectId>, category: string, name: string)
      modifies this`tags, this`names
      ensures file.None? ==> tags == old(tags) && names == old(names)
      ensures file.Some? ==> tags == old(tags)[file.value := old(Entry(tags, file.value)) + {category}]
      ensures file.Some? ==> names == old(names)[file.value := old(Entry(names, file.value)) + {name}]
    {
      if file.None? {
        return;
      }
      AddTag(file.value, category);
      names := names[file.value := Entry(names, file.value) + {name}];
    }

    /** `remove_mirror`; the remaining links are those of the tables. */
    method RemoveMirror(file: ObjectId, category: string, name: string)
      modifies this`tags, this`names
      ensures tags == if category in CategoriesOf(threats, links, file) then old(tags)
        else old(tags)[file := old(Entry(tags, file)) - {category}]
      ensures names == if name in ThreatsOf(links, file) then old(names)
        else old(names)[file := old(Entry(names, file)) - {name}]
    {
      if category !in CategoriesOf(threats, links, file) {
        RemoveTag(file, category);
      }
      if name !in ThreatsOf(links, file) {
        names := names[file := Entry(names, file) - {name}];
      }
    }

    /** `create_threat` */
    method CreateThreat(name: string, category: string, readme: Option<string>, flat: bool) returns (r: Change)
      requires Valid()
      modifies this`threats
      ensures Valid()
      ensures r == if !IsName(name) || category !in CATEGORIES then Refused("invalid")
        else if name in old(threats) then Refused("name conflict") else Changed
      ensures threats == if r.Changed? then old(threats)[name := Threat(category, flat, readme)] else old(threats)
    {
      if !IsName(name) || category !in CATEGORIES {
        return Refused("invalid");
      }
      if name in threats {
        return Refused("name conflict");
      }
      NewThreatMirrors(threats, links, tags, names, name, Threat(category, flat, readme));
      threats := threats[name := Threat(category, flat, readme)];
      return Changed;
    }

    /** `link_sample` */
    method LinkSample(name: string, file: Option<ObjectId>, relPath: string) returns (r: Change)
      requires Valid() && name in threats
      modifies this`links, this`tags, this`names
      ensures Valid() && SameOtherTags(old(tags), tags)
      ensures r == LinkAnswer(threats, old(links), name, file, relPath)
      ensures links == if r.Changed? then old(links)[Key(name, ValidateRelPath(relPath).value) := file] else old(links)
    {
      var validated := ValidateRelPath(relPath);
      if validated.Failure? {
        return Refused("invalid path");
      }
      var key := Key(name, validated.value);
      if !LayoutOk(name, threats[name], key.path) {
        return Refused("invalid layout");
      }
      if key in links {
        return if links[key] == file then Unchanged else Refused("path conflict");
      }
      if threats[name].flat && LinksOfThreat(links, name) != {} {
        return Refused("a flat threat has exactly one sample");
      }
      LinkKeepsSound(threats, links, key, file, relPath);
      LinkMirrors(threats, links, tags, names, key, file);
      links := links[key := file];
      ApplyMirror(file, threats[name].category, name);
      return Changed;
    }

    /** `_unlink` */
    method Unlink(key: Key)
      requires Valid() && key in links
      modifies this`links, this`tags, this`names
      ensures Valid() && SameOtherTags(old(tags), tags)
      ensures links == old(links) - {key}
    {
      var file := links[key];
      UnlinkMirrors(threats, links, tags, names, key);
      links := links - {key};
      if file.Some? {
        RemoveMirror(file.value, threats[key.threat].category, key.threat);
      }
    }

    /** `unlink_sample` */
    method UnlinkSample(name: string, relPath: string) returns (found: bool)
      requires Valid() && name in threats
      modifies this`links, this`tags, this`names
      ensures Valid() && SameOtherTags(old(tags), tags)
      ensures found == (Key(name, relPath) in old(links)) && links == old(links) - {Key(name, relPath)}
    {
      found := Key(name, relPath) in links;
      if found {
        Unlink(Key(name, relPath));
      }
    }

    /** `set_category` */
    method SetCategory(name: string, category: string) returns (r: Change)
      requires Valid() && name in threats
      modifies this`threats, this`tags
      ensures Valid() && SameOtherTags(old(tags), tags)
      ensures r == if category !in CATEGORIES then Refused("invalid")
        else if category == old(threats[name].category) then Unchanged
                   else if old(threats[name].flat) then Refused("flat threats cannot change category") else Changed
      ensures threats == if r.Changed? then old(threats)[name := old(threats[name]).(category := category)]
        else old(threats)
    {
      if category !in CATEGORIES {
        return Refused("invalid");
      }
      var previous := threats[name].category;
      if category == previous {
        return Unchanged;
      }
      if threats[name].flat {
        return Refused("flat threats cannot change category");
      }
      ghost var was, wasTags := threats, tags;
      var todo := ObjectsOf(links, name);
      threats := threats[name := threats[name].(category := category)];
      ghost var done: set<ObjectId> := {};
      while todo != {}
        invariant threats == was[name := was[name].(category := category)]
        invariant todo !! done && todo + done == ObjectsOf(links, name)
        invariant forall o: ObjectId :: o !in done ==> Entry(tags, o) == Entry(wasTags, o)
        invariant forall o: ObjectId :: o in done ==>
          Entry(tags, o) == Recategorized(Entry(wasTags, o), threats, links, name, previous, category, o)
      {
        var o :| o in todo;
        AddTag(o, category);
        if previous !in OtherCategories(threats, links, name, o) {
          RemoveTag(o, previous);
        }
        todo, done := todo - {o}, done + {o};
      }
      assert done == ObjectsOf(links, name);
      forall o: ObjectId | o in ObjectsOf(links, name)
        ensures Entry(tags, o) == Recategorized(Entry(wasTags, o), threats, links, name, was[name].category, category,
          o)
      {
        assert o in done;
      }
      RecategorizedMirrors(was, threats, links, wasTags, tags, names, name, category);
      return Changed;
    }

    /** `set_readme` */
    method SetReadme(name: string, readme: Option<string>)
      requires Valid() && name in threats
      modifies this`threats
      ensures Valid() && threats == old(threats)[name := old(threats[name]).(readme := readme)]
    {
      ReadmeMirrors(threats, links, tags, names, name, readme);
      threats := threats[name := threats[name].(readme := readme)];
    }

    /** `delete_threat` */
    method DeleteThreat(name: string)
      requires Valid() && name in threats
      modifies this
      ensures Valid() && SameOtherTags(old(tags), tags)
      ensures threats == old(threats) - {name} && links == old(links) - LinksOfThreat(old(links), name)
    {
      var todo := LinksOfThreat(links, name);
      while todo != {}
        invariant Valid() && threats == old(threats) && SameOtherTags(old(tags), tags)
        invariant todo == LinksOfThreat(links, name) && todo <= LinksOfThreat(old(links), name)
        invariant links == old(links) - (LinksOfThreat(old(links), name) - todo)
      {
        var key :| key in todo;
        Unlink(key);
        todo := todo - {key};
      }
      UnlinkedThreatMirrors(threats, links, tags, names, name);
      threats := threats - {name};
    }
  }

  /** What the service is asked to do; a request for a threat that does not exist is not passed on. */
  datatype Request =
    | Create(name: string, category: string, readme: Option<string>, flat: bool)
    | Link(name: string, file: Option<ObjectId>, path: string)
    | Unlink(name: string, path: string)
    | Move(name: string, category: string)
    | Describe(name: string, readme: Option<string>)
    | Delete(name: string)

  /** The two tables. */
  datatype Catalog = Catalog(threats: Threats, links: Links)

  /** What a request does to the tables. */
  function Served(c: Catalog, r: Request): Catalog {
    if r.Create? then
      if !IsName(r.name) || r.category !in CATEGORIES || r.name in c.threats then c
      else c.(threats := c.threats[r.name := Threat(r.category, r.flat, r.readme)])
    else if r.name !in c.threats then c
    else
      var threat := c.threats[r.name];
      match r
      case Link(name, file, path) =>
        if LinkAnswer(c.threats, c.links, name, file, path) != Changed then c
        else c.(links := c.links[Key(name, ValidateRelPath(path).value) := file])
      case Unlink(name, path) => c.(links := c.links - {Key(name, path)})
      case Move(name, category) =>
        if category !in CATEGORIES || threat.flat then c
        else c.(threats := c.threats[name := threat.(category := category)])
      case Describe(name, readme) => c.(threats := c.threats[name := threat.(readme := readme)])
      case Delete(name) => Catalog(c.threats - {name}, c.links - LinksOfThreat(c.links, name))
  }

  function AllServed(c: Catalog, requests: seq<Request>): Catalog {
    if requests == [] then c else Served(AllServed(c, requests[..|requests| - 1]), requests[|requests| - 1])
  }

  /** The requests, run on the library: the tables are what they make of them, and the mirror agrees with the tables. */
  method Serve(library: Library, requests: seq<Request>)
    requires library.Valid()
    modifies library
    ensures library.Valid() && SameOtherTags(old(library.tags), library.tags)
    ensures library.Tables() == AllServed(old(library.Tables()), requests)
  {
    assert requests[..0] == [];
    for i := 0 to |requests|
      invariant library.Valid() && SameOtherTags(old(library.tags), library.tags)
      invariant library.Tables() == AllServed(old(library.Tables()), requests[..i])
    {
      assert requests[..i + 1][..i] == requests[..i];
      library.ServeOne(requests[i]);
    }
    assert requests[..|requests|] == requests;
  }

  /** What `link_sample` answers. */
  function LinkAnswer(threats: Threats, links: Links, name: string, file: Option<ObjectId>, relPath: string): Change
    requires name in threats
  {
    var validated := ValidateRelPath(relPath);
    if validated.Failure? then Refused("invalid path")
    else
      var key := Key(name, validated.value);
      if !LayoutOk(name, threats[name], key.path) then Refused("invalid layout")
      else if key in links then if links[key] == file then Unchanged else Refused("path conflict")
      else if threats[name].flat && LinksOfThreat(links, name) != {}
        then Refused("a flat threat has exactly one sample")
      else Changed
  }

  /** `path` is `stem` with an extension; dots alone are no stem. */
  ghost predicate IsExtended(stem: string, path: string) {
    && |stem| < |path| && path[..|stem|] == stem && path[|stem|] == '.' && '.' !in path[|stem| + 1..]
    && exists c :: c in stem && c != '.'
  }

  /** The one file of a flat threat has its name, with or without an extension. */
  ghost predicate IsNamedAfter(path: string, name: string) {
    '/' !in path && (IsExtended(name, path) || (path == name && !exists stem :: IsExtended(stem, path)))
  }

  lemma StemIs(path: string, name: string)
    ensures '/' !in path && Stem(path) == name <==> IsNamedAfter(path, name)
  {
    if '/' !in path {
      var dot := LastIndex(path, '.');
      assert LastIndex(path, '/') == -1;
      assert forall stem :: IsExtended(stem, path) ==> |stem| == dot by { ExtensionIsLast(path); }
      if exists i :: -1 < i < dot && path[i] != '.' {
        var i :| -1 < i < dot && path[i] != '.';
        var stem := path[..dot];
        assert stem[i] in stem && path[..|stem|] == stem;
        assert IsExtended(stem, path);
      } else {
        if stem :| IsExtended(stem, path) {
          StemNamesSomething(stem, path);
          assert false;
        }
      }
    }
  }

  lemma StemNamesSomething(stem: string, path: string)
    requires IsExtended(stem, path)
    ensures exists i :: 0 <= i < |stem| && path[i] != '.'
  {
    var c :| c in stem && c != '.';
    var i :| 0 <= i < |stem| && stem[i] == c;
    assert path[..|stem|][i] == path[i];
  }

  lemma ExtensionIsLast(path: string)
    ensures forall stem :: IsExtended(stem, path) ==> |stem| == LastIndex(path, '.')
  {
    forall stem | IsExtended(stem, path) ensures |stem| == LastIndex(path, '.') {
      var dot := LastIndex(path, '.');
      assert forall j :: |stem| < j < |path| ==> path[j] == path[|stem| + 1..][j - |stem| - 1];
    }
  }

  /** The link that a request asks for may be made: its path is acceptable and fits the threat. */
  ghost predicate MayLink(threat: Threat, name: string, relPath: string) {
    && IsAcceptable(relPath)
    && var path := JoinSegments(WithoutDots(Segments(relPath)));
       if threat.flat then IsNamedAfter(path, name) else path != "README.md"
  }

  /** A link is made iff it may be, is not there, and is not the second one of a flat threat. */
  lemma LinkSucceedsIff(threats: Threats, links: Links, name: string, file: Option<ObjectId>, relPath: string)
    requires name in threats
    ensures var r, key := LinkAnswer(threats, links, name, file, relPath),
                          Key(name, JoinSegments(WithoutDots(Segments(relPath))));
      var may := MayLink(threats[name], name, relPath);
      && (r == Changed <==>
           may && key !in links && (threats[name].flat ==> forall k :: k in links ==> k.threat != name))
      && (r == Unchanged <==> may && key in links && links[key] == file)
  {
    hide ValidateRelPath, IsAcceptable, Stem, IsNamedAfter, JoinSegments;
    AcceptedIff(relPath);
    StemIs(JoinSegments(WithoutDots(Segments(relPath))), name);
    assert LinksOfThreat(links, name) == {} <==> forall k :: k in links ==> k.threat != name by {
      assert forall k :: k in links && k.threat == name ==> k in LinksOfThreat(links, name);
    }
  }

  /** Tags that are no categories stay. */
  ghost predicate SameOtherTags(tags: Marks, tags': Marks) {
    forall o: ObjectId :: OtherTags(tags', o) == OtherTags(tags, o)
  }

  function OtherTags(tags: Marks, o: ObjectId): set<string> {
    Entry(tags, o) - CATEGORIES
  }

  /** The categories of the other threats that link a file. */
  function OtherCategories(threats: Threats, links: Links, name: string, o: ObjectId): set<string> {
    set t | t in ThreatsOf(links, o) && t != name && t in threats :: threats[t].category
  }

  /** The tags of an object whose threat `name` moved from one category to another. */
  function Recategorized(tags: set<string>, threats: Threats, links: Links, name: string, from: string, to: string,
      o: ObjectId): set<string> {
    tags + {to} - if from in OtherCategories(threats, links, name, o) then {} else {from}
  }

  /** Links belong to threats, and names, categories and paths were checked. */
  ghost predicate Sound(threats: Threats, links: Links) {
    && (forall t :: t in threats ==> IsName(t) && threats[t].category in CATEGORIES)
    && (forall k :: k in links ==>
      k.threat in threats && IsCleanPath(k.path) && LayoutOk(k.threat, threats[k.threat], k.path))
    && (forall k, l :: k in links && l in links && k.threat == l.threat && threats[k.threat].flat ==> k == l)
  }

  // ---- What the changes do to the mirror -----------------------------------------------------------

  lemma NewThreatMirrors(threats: Threats, links: Links, tags: Marks, names: Marks, name: string, threat: Threat)
    requires Mirrors(threats, links, tags, names) && Sound(threats, links) && name !in threats
    requires IsName(name) && threat.category in CATEGORIES
    ensures Mirrors(threats[name := threat], links, tags, names) && Sound(threats[name := threat], links)
  {
    var threats' := threats[name := threat];
    forall o: ObjectId ensures MirrorOf(threats', links, tags, names, o) {
      assert MirrorOf(threats, links, tags, names, o);
      assert CategoriesOf(threats', links, o) == CategoriesOf(threats, links, o);
    }
  }

  lemma LinkKeepsSound(threats: Threats, links: Links, key: Key, file: Option<ObjectId>, relPath: string)
    requires Sound(threats, links) && key.threat in threats && key !in links
      && ValidateRelPath(relPath) == Success(key.path)
    requires LayoutOk(key.threat, threats[key.threat], key.path)
      && (threats[key.threat].flat ==> LinksOfThreat(links, key.threat) == {})
    ensures Sound(threats, links[key := file])
  {
    hide LayoutOk, IsCleanPath, IsName, ValidateRelPath;
    ValidatedIsClean(relPath);
    forall k | k in links ensures threats[key.threat].flat ==> k.threat != key.threat {
      assert threats[key.threat].flat && k.threat == key.threat ==> k in LinksOfThreat(links, key.threat);
    }
  }

  /** One more link. */
  lemma ThreatsWithLink(links: Links, key: Key, file: Option<ObjectId>, o: ObjectId)
    requires key !in links
    ensures ThreatsOf(links[key := file], o) == ThreatsOf(links, o) + if file == Some(o) then {key.threat} else {}
  {
    var links' := links[key := file];
    forall t | t in ThreatsOf(links, o) ensures t in ThreatsOf(links', o) {
      var k :| k in links && links[k] == Some(o) && k.threat == t;
      assert k in links' && links'[k] == Some(o);
    }
    if file == Some(o) {
      assert key in links' && links'[key] == Some(o);
    }
  }

  lemma CategoriesAdd(threats: Threats, links: Links, links': Links, o: ObjectId, t: string)
    requires t in threats && ThreatsOf(links', o) == ThreatsOf(links, o) + {t}
    ensures CategoriesOf(threats, links', o) == CategoriesOf(threats, links, o) + {threats[t].category}
  {
    assert forall u :: u in ThreatsOf(links', o) <==> u in ThreatsOf(links, o) || u == t;
  }

  lemma LinkMirrors(threats: Threats, links: Links, tags: Marks, names: Marks, key: Key, file: Option<ObjectId>)
    requires Mirrors(threats, links, tags, names) && Sound(threats, links) && key !in links && key.threat in threats
    ensures var links' := links[key := file];
      var c := threats[key.threat].category;
      var tags' := if file.Some? then tags[file.value := Entry(tags, file.value) + {c}] else tags;
      var names' := if file.Some? then names[file.value := Entry(names, file.value) + {key.threat}] else names;
      Mirrors(threats, links', tags', names') && SameOtherTags(tags, tags')
  {
    hide ThreatsOf, CategoriesOf;
    var links' := links[key := file];
    var c := threats[key.threat].category;
    assert c in CATEGORIES;
    var tags' := if file.Some? then tags[file.value := Entry(tags, file.value) + {c}] else tags;
    var names' := if file.Some? then names[file.value := Entry(names, file.value) + {key.threat}] else names;
    forall o: ObjectId ensures MirrorOf(threats, links', tags', names', o) {
      assert MirrorOf(threats, links, tags, names, o);
      ThreatsWithLink(links, key, file, o);
      if file == Some(o) {
        CategoriesAdd(threats, links, links', o, key.threat);
      } else {
        assert ThreatsOf(links', o) == ThreatsOf(links, o);
        SameThreatsSameCategories(threats, links, links', o);
      }
    }
  }

  lemma SameThreatsSameCategories(threats: Threats, links: Links, links': Links, o: ObjectId)
    requires ThreatsOf(links', o) == ThreatsOf(links, o)
    ensures CategoriesOf(threats, links', o) == CategoriesOf(threats, links, o)
  {}

  /** One link less. */
  lemma ThreatsWithoutLink(links: Links, key: Key, o: ObjectId)
    requires key in links
    ensures var links' := links - {key};
      && ThreatsOf(links', o) <= ThreatsOf(links, o) <= ThreatsOf(links', o) + {key.threat}
      && (links[key] == Some(o) ==> key.threat in ThreatsOf(links, o))
      && (links[key] != Some(o) ==> ThreatsOf(links', o) == ThreatsOf(links, o))
  {
    var links' := links - {key};
    forall t | t in ThreatsOf(links, o)
      ensures t in ThreatsOf(links', o) || (t == key.threat && links[key] == Some(o)) {
      var k :| k in links && links[k] == Some(o) && k.threat == t;
      assert k != key ==> k in links' && links'[k] == Some(o);
    }
  }

  lemma CategoriesDrop(threats: Threats, links: Links, links': Links, o: ObjectId, t: string)
    requires t in threats && t in ThreatsOf(links, o)
      && ThreatsOf(links', o) <= ThreatsOf(links, o) <= ThreatsOf(links', o) + {t}
    ensures CategoriesOf(threats, links, o) == CategoriesOf(threats, links', o) + {threats[t].category}
  {}

  lemma UnlinkMirrors(threats: Threats, links: Links, tags: Marks, names: Marks, key: Key)
    requires Mirrors(threats, links, tags, names) && Sound(threats, links) && key in links
    ensures var links', file, t := links - {key}, links[key], key.threat;
      && Sound(threats, links')
      && t in threats
      && var c := threats[t].category;
         var tags' := if file.None? || c in CategoriesOf(threats, links', file.value) then tags
           else tags[file.value := Entry(tags, file.value) - {c}];
         var names' := if file.None? || t in ThreatsOf(links', file.value) then names
           else names[file.value := Entry(names, file.value) - {t}];
         Mirrors(threats, links', tags', names') && SameOtherTags(tags, tags')
  {
    hide ThreatsOf, CategoriesOf, LayoutOk, IsName, IsCleanPath;
    var links', file, t := links - {key}, links[key], key.threat;
    var c := threats[t].category;
    var tags' := if file.None? || c in CategoriesOf(threats, links', file.value) then tags
      else tags[file.value := Entry(tags, file.value) - {c}];
    var names' := if file.None? || t in ThreatsOf(links', file.value) then names
      else names[file.value := Entry(names, file.value) - {t}];
    forall o: ObjectId ensures MirrorOf(threats, links', tags', names', o) {
      assert MirrorOf(threats, links, tags, names, o);
      ThreatsWithoutLink(links, key, o);
      if file == Some(o) {
        CategoriesDrop(threats, links, links', o, t);
      } else {
        SameThreatsSameCategories(threats, links, links', o);
      }
    }
  }

  lemma ReadmeMirrors(threats: Threats, links: Links, tags: Marks, names: Marks, name: string, readme: Option<string>)
    requires Mirrors(threats, links, tags, names) && Sound(threats, links) && name in threats
    ensures var threats' := threats[name := threats[name].(readme := readme)];
      Mirrors(threats', links, tags, names) && Sound(threats', links)
  {
    hide IsName, IsCleanPath;
    var threats' := threats[name := threats[name].(readme := readme)];
    forall o: ObjectId ensures MirrorOf(threats', links, tags, names, o) {
      assert MirrorOf(threats, links, tags, names, o);
      assert forall t :: t in threats ==> t in threats' && threats'[t].category == threats[t].category;
      assert CategoriesOf(threats', links, o) == CategoriesOf(threats, links, o);
    }
  }

  lemma RecategorizedMirrors(was: Threats, threats: Threats, links: Links, wasTags: Marks, tags: Marks,
                             names: Marks, name: string, category: string)
    requires Mirrors(was, links, wasTags, names) && Sound(was, links) && name in was && !was[name].flat
      && category in CATEGORIES
    requires threats == was[name := was[name].(category := category)] && category != was[name].category
    requires forall o: ObjectId :: o !in ObjectsOf(links, name) ==> Entry(tags, o) == Entry(wasTags, o)
    requires forall o: ObjectId :: o in ObjectsOf(links, name) ==>
      Entry(tags, o) == Recategorized(Entry(wasTags, o), threats, links, name, was[name].category, category, o)
    ensures Mirrors(threats, links, tags, names) && Sound(threats, links) && SameOtherTags(wasTags, tags)
  {
    hide IsName, IsCleanPath, CategoriesOf, OtherCategories, ThreatsOf, ObjectsOf, Stem;
    assert was[name].category in CATEGORIES;
    forall o: ObjectId ensures MirrorOf(threats, links, tags, names, o) {
      assert MirrorOf(was, links, wasTags, names, o);
      CategoriesWithout(was, links, name, o);
      CategoriesWithout(threats, links, name, o);
      OtherCategoriesSame(was, threats, links, name, o);
      LinkedObjects(links, name, o);
      if o in ObjectsOf(links, name) {
        Moved(Entry(wasTags, o), OtherCategories(was, links, name, o), CATEGORIES, was[name].category, category);
      }
    }
    forall o: ObjectId ensures OtherTags(tags, o) == OtherTags(wasTags, o) {
      if o in ObjectsOf(links, name) {
        OtherCategoriesSame(was, threats, links, name, o);
        MovedOthers(Entry(wasTags, o), OtherCategories(was, links, name, o), CATEGORIES, was[name].category, category);
      }
    }
  }

  lemma Moved(tags: set<string>, others: set<string>, categories: set<string>, from: string, to: string)
    requires tags * categories == others + {from} && from in categories && to in categories && from != to
    ensures (tags + {to} - if from in others then {} else {from}) * categories == others + {to}
  {
    var moved := (tags + {to} - if from in others then {} else {from}) * categories;
    forall x ensures x in moved <==> x in others + {to} {
      assert x in tags * categories <==> x in others + {from};
    }
  }

  lemma MovedOthers(tags: set<string>, others: set<string>, categories: set<string>, from: string, to: string)
    requires from in categories && to in categories
    ensures (tags + {to} - if from in others then {} else {from}) - categories == tags - categories
  {}

  lemma OtherCategoriesSame(was: Threats, threats: Threats, links: Links, name: string, o: ObjectId)
    requires was.Keys == threats.Keys && forall t :: t in was && t != name ==> threats[t] == was[t]
    ensures OtherCategories(threats, links, name, o) == OtherCategories(was, links, name, o)
  {}

  lemma LinkedObjects(links: Links, name: string, o: ObjectId)
    ensures o in ObjectsOf(links, name) <==> name in ThreatsOf(links, o)
  {
    if name in ThreatsOf(links, o) {
      var k :| k in links && links[k] == Some(o) && k.threat == name;
      assert k.threat == name && links[k].Some? && links[k].value == o;
    }
  }

  lemma CategoriesWithout(threats: Threats, links: Links, name: string, o: ObjectId)
    requires name in threats
    ensures CategoriesOf(threats, links, o) ==
      OtherCategories(threats, links, name, o) + if name in ThreatsOf(links, o) then {threats[name].category} else {}
  {}

  lemma UnlinkedThreatMirrors(threats: Threats, links: Links, tags: Marks, names: Marks, name: string)
    requires Mirrors(threats, links, tags, names) && Sound(threats, links) && LinksOfThreat(links, name) == {}
    ensures Mirrors(threats - {name}, links, tags, names) && Sound(threats - {name}, links)
  {
    hide IsName, IsCleanPath, LayoutOk;
    forall k | k in links ensures k.threat != name {
      assert k.threat == name ==> k in LinksOfThreat(links, name);
    }
    forall o: ObjectId ensures MirrorOf(threats - {name}, links, tags, names, o) {
      assert MirrorOf(threats, links, tags, names, o);
      assert name !in ThreatsOf(links, o);
      assert CategoriesOf(threats - {name}, links, o) == CategoriesOf(threats, links, o);
    }
  }
}
