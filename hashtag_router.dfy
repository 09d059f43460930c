/**
 * The hashtag routers: `postRouter.create` (the post insert with find-or-create of its tags, in one
 * transaction), `getTrending` and `getPostsByTag`.
 */
module HashtagRouter {
  import opened Wrappers
  import opened Rows
  import opened Ordering
  import opened Text
  import opened Schema
  import opened Views
  import opened Store
  import opened Pagination

  // ---------------------------------------------------------------------------------------------
  // create: tag normalisation and find-or-create

  /** `tag.toLowerCase().replace(/^#/, "")`: lower-case, then drop one leading `#`. */
  function Normalize(tag: string): (r: string)
    ensures |tag| > 0 && tag[0] == '#' ==> r == LowerStr(tag[1..])
    ensures !(|tag| > 0 && tag[0] == '#') ==> r == LowerStr(tag)
    ensures forall i :: 0 <= i < |r| ==> !IsUpper(r[i])
  {
    var lower := LowerStr(tag);
    assert StartsWith(lower, "#") <==> |tag| > 0 && tag[0] == '#' by {
      if |tag| > 0 { assert lower[..1] == [lower[0]]; }
    }
    if StartsWith(lower, "#") then
      assert lower[1..] == LowerStr(tag[1..]);
      lower[1..]
    else
      lower
  }

  function NormalizeAll(): string -> string {
    (tag: string) => Normalize(tag)
  }

  /** Only one `#` goes: `"##Go"` becomes `"#go"`. */
  lemma NormalizeDropsOneHash(s: string)
    ensures Normalize("#" + s) == LowerStr(s)
    ensures Normalize("##" + s) == "#" + LowerStr(s)
  {
    assert ("#" + s)[1..] == s;
    assert ("##" + s)[1..] == "#" + s;
    assert LowerStr("#" + s) == "#" + LowerStr(s) by {
      assert LowerStr("#" + s)[0] == Lower('#');
    }
  }

  function Named(name: string): Hashtag -> bool {
    (h: Hashtag) => h.name == name
  }

  /** The hashtags table and its id sequence after the lookups, and the record found or made per name. */
  datatype Resolved = Resolved(tags: seq<Hashtag>, next: int, records: seq<Hashtag>)

  /** `records` found earlier, in front of what the rest of the lookups give. */
  function After(records: seq<Hashtag>, r: Result<Resolved>): Result<Resolved> {
    match r
    case Err(e) => Err(e)
    case Ok(v) => Ok(v.(records := records + v.records))
  }

  /**
   * The find-or-create of each name, one after the other: an existing row with the name is reused,
   * a missing name is inserted with the next id (a name longer than `varchar(50)` fails the insert).
   */
  function Resolve(tags: seq<Hashtag>, next: int, names: seq<string>): (r: Result<Resolved>)
    ensures r.Ok? ==> |r.value.records| == |names|
    decreases |names|
  {
    if names == [] then Ok(Resolved(tags, next, []))
    else
      match FindFirst(tags, Named(names[0]))
      case Some(h) => After([h], Resolve(tags, next, names[1..]))
      case None =>
        if |names[0]| > TagNameLength then Err(InternalError)
        else
          var h := Hashtag(next, names[0]);
          After([h], Resolve(tags + [h], next + 1, names[1..]))
  }

  lemma AfterAfter(a: seq<Hashtag>, b: seq<Hashtag>, r: Result<Resolved>)
    ensures After(a, After(b, r)) == After(a + b, r)
  {
    if r.Ok? {
      assert a + (b + r.value.records) == (a + b) + r.value.records;
    }
  }

  /** One step of `Resolve`: a found name is reused. */
  lemma ResolveFound(tags: seq<Hashtag>, next: int, names: seq<string>, h: Hashtag)
    requires |names| > 0 && FindFirst(tags, Named(names[0])) == Some(h)
    ensures Resolve(tags, next, names) == After([h], Resolve(tags, next, names[1..]))
  {
  }

  /** One step of `Resolve`: a missing name that fits is inserted with the next id. */
  lemma ResolveNew(tags: seq<Hashtag>, next: int, names: seq<string>)
    requires |names| > 0 && FindFirst(tags, Named(names[0])).None? && |names[0]| <= TagNameLength
    ensures var h := Hashtag(next, names[0]);
            Resolve(tags, next, names) == After([h], Resolve(tags + [h], next + 1, names[1..]))
  {
  }

  /** One step of `Resolve`: a missing name too long for the column fails everything. */
  lemma ResolveTooLong(tags: seq<Hashtag>, next: int, names: seq<string>, records: seq<Hashtag>)
    requires |names| > 0 && FindFirst(tags, Named(names[0])).None? && |names[0]| > TagNameLength
    ensures After(records, Resolve(tags, next, names)) == Err(InternalError)
  {
  }

  /** The `Promise.all` of find-or-create lookups inside the transaction, taken one name at a time. */
  method FindOrCreate(tx: Tables, names: seq<string>) returns (r: Result<Resolved>)
    ensures r == Resolve(tx.hashtags, tx.nextHashtagId, names)
  {
    var tags := tx.hashtags;
    var next := tx.nextHashtagId;
    var records: seq<Hashtag> := [];
    var i := 0;
    assert names[0..] == names;
    assert After([], Resolve(tags, next, names)) == Resolve(tags, next, names) by {
      var r := Resolve(tags, next, names);
      if r.Ok? { assert [] + r.value.records == r.value.records; }
    }
    while i < |names|
      invariant 0 <= i <= |names|
      invariant Resolve(tx.hashtags, tx.nextHashtagId, names) == After(records, Resolve(tags, next, names[i..]))
      decreases |names| - i
    {
      var tagName := names[i];
      assert names[i..][0] == tagName && names[i..][1..] == names[i + 1..];
      var existing := FindFirst(tags, Named(tagName));
      if existing.Some? {
        ResolveFound(tags, next, names[i..], existing.value);
        AfterAfter(records, [existing.value], Resolve(tags, next, names[i + 1..]));
        records := records + [existing.value];
      } else {
        if |tagName| > TagNameLength {
          ResolveTooLong(tags, next, names[i..], records);
          return Err(InternalError);
        }
        var newTag := Hashtag(next, tagName);
        ResolveNew(tags, next, names[i..]);
        AfterAfter(records, [newTag], Resolve(tags + [newTag], next + 1, names[i + 1..]));
        tags := tags + [newTag];
        next := next + 1;
        records := records + [newTag];
      }
      i := i + 1;
    }
    assert names[i..] == [];
    assert Resolve(tags, next, []) == Ok(Resolved(tags, next, []));
    assert records + [] == records;
    return Ok(Resolved(tags, next, records));
  }

  /**
   * The lookups keep the table's keys (serial id, unique name) and its rows, give one record per
   * name, carrying that name and present in the table, and create only names that were missing.
   */
  lemma ResolveFacts(tags: seq<Hashtag>, next: int, names: seq<string>)
    requires Serial(tags, HashtagKey(), next) && UniqueTagNames(tags)
    ensures var r := Resolve(tags, next, names);
            r.Ok? ==>
              && Serial(r.value.tags, HashtagKey(), r.value.next) && UniqueTagNames(r.value.tags)
              && |tags| <= |r.value.tags| && r.value.tags[..|tags|] == tags
              && |r.value.records| == |names|
              && (forall i :: 0 <= i < |names| ==> r.value.records[i] in r.value.tags && r.value.records[i].name == names[i])
              && (forall h :: h in r.value.tags[|tags|..] ==> h.name in names && !Any(tags, Named(h.name)))
  {
    ResolveKeeps(tags, next, names);
    ResolveRecords(tags, next, names);
  }

  /** Inserting a hashtag whose name is absent keeps the names unique. */
  lemma InsertKeepsTagNames(tags: seq<Hashtag>, h: Hashtag)
    requires UniqueTagNames(tags) && !Any(tags, Named(h.name))
    ensures UniqueTagNames(tags + [h])
  {
    var tags' := tags + [h];
    forall i | 0 <= i < |tags| ensures tags'[i].name != h.name {
      assert !Named(h.name)(tags[i]);
    }
  }

  lemma {:induction false} ResolveKeeps(tags: seq<Hashtag>, next: int, names: seq<string>)
    requires Serial(tags, HashtagKey(), next) && UniqueTagNames(tags)
    ensures var r := Resolve(tags, next, names);
            r.Ok? ==>
              && Serial(r.value.tags, HashtagKey(), r.value.next) && UniqueTagNames(r.value.tags)
              && |tags| <= |r.value.tags| && r.value.tags[..|tags|] == tags
              && (forall h :: h in r.value.tags[|tags|..] ==> h.name in names && !Any(tags, Named(h.name)))
    decreases |names|
  {
    var r := Resolve(tags, next, names);
    if names != [] && r.Ok? {
      match FindFirst(tags, Named(names[0]))
      case Some(h) =>
        ResolveKeeps(tags, next, names[1..]);
        var v := Resolve(tags, next, names[1..]).value;
        assert r.value.tags == v.tags;
        forall x | x in r.value.tags[|tags|..] ensures x.name in names && !Any(tags, Named(x.name)) {
          assert x.name in names[1..];
        }
      case None =>
        var h := Hashtag(next, names[0]);
        var tags' := tags + [h];
        AppendKeepsSerial(tags, HashtagKey(), next, h);
        InsertKeepsTagNames(tags, h);
        ResolveKeeps(tags', next + 1, names[1..]);
        var v := Resolve(tags', next + 1, names[1..]).value;
        assert r.value.tags == v.tags;
        NewTagsTail(tags, h, v.tags, names);
    }
  }

  /** Rows after `tags + [h]` with names among the rest and absent before, behind a new row for the first name. */
  lemma NewTagsTail(tags: seq<Hashtag>, h: Hashtag, tags'': seq<Hashtag>, names: seq<string>)
    requires names != [] && h.name == names[0] && !Any(tags, Named(h.name))
    requires |tags| + 1 <= |tags''| && tags''[..|tags| + 1] == tags + [h]
    requires forall x :: x in tags''[|tags| + 1..] ==> x.name in names[1..] && !Any(tags + [h], Named(x.name))
    ensures tags''[..|tags|] == tags
    ensures forall x :: x in tags''[|tags|..] ==> x.name in names && !Any(tags, Named(x.name))
  {
    var tags' := tags + [h];
    assert tags''[..|tags|] == tags by { assert tags'[..|tags|] == tags; }
    forall x | x in tags''[|tags|..] ensures x.name in names && !Any(tags, Named(x.name)) {
      var k :| |tags| <= k < |tags''| && tags''[k] == x;
      if k == |tags| {
        assert tags''[k] == tags'[|tags|];
      } else {
        assert x in tags''[|tags'|..];
        assert forall m :: 0 <= m < |tags| ==> tags'[m] == tags[m];
      }
    }
  }

  lemma {:induction false} ResolveRecords(tags: seq<Hashtag>, next: int, names: seq<string>)
    requires Serial(tags, HashtagKey(), next) && UniqueTagNames(tags)
    ensures var r := Resolve(tags, next, names);
            r.Ok? ==> forall i :: 0 <= i < |names| ==> r.value.records[i] in r.value.tags && r.value.records[i].name == names[i]
    decreases |names|
  {
    var r := Resolve(tags, next, names);
    if names != [] && r.Ok? {
      match FindFirst(tags, Named(names[0]))
      case Some(h) =>
        ResolveRecords(tags, next, names[1..]);
        ResolveKeeps(tags, next, names[1..]);
        var v := Resolve(tags, next, names[1..]).value;
        assert r.value == v.(records := [h] + v.records);
        assert h in v.tags by { var k :| 0 <= k < |tags| && tags[k] == h; assert v.tags[..|tags|][k] == h; }
        RecordsCons(h, v, names);
      case None =>
        var h := Hashtag(next, names[0]);
        var tags' := tags + [h];
        AppendKeepsSerial(tags, HashtagKey(), next, h);
        InsertKeepsTagNames(tags, h);
        ResolveRecords(tags', next + 1, names[1..]);
        ResolveKeeps(tags', next + 1, names[1..]);
        var v := Resolve(tags', next + 1, names[1..]).value;
        assert r.value == v.(records := [h] + v.records);
        assert h in v.tags by { assert v.tags[..|tags'|][|tags|] == h; }
        RecordsCons(h, v, names);
    }
  }

  /** A record for the first name in front of records for the rest gives a record for every name. */
  lemma RecordsCons(h: Hashtag, v: Resolved, names: seq<string>)
    requires names != [] && h in v.tags && h.name == names[0] && |v.records| == |names| - 1
    requires forall i :: 0 <= i < |names[1..]| ==> v.records[i] in v.tags && v.records[i].name == names[1..][i]
    ensures var w := v.(records := [h] + v.records);
            forall i :: 0 <= i < |names| ==> w.records[i] in w.tags && w.records[i].name == names[i]
  {
    var w := v.(records := [h] + v.records);
    forall i | 0 <= i < |names| ensures w.records[i] in w.tags && w.records[i].name == names[i] {
      if i > 0 { assert w.records[i] == v.records[i - 1] && names[i] == names[1..][i - 1]; }
    }
  }

  /** The lookups fail exactly when some name is missing from the table and longer than `varchar(50)`. */
  lemma {:induction false} ResolveFails(tags: seq<Hashtag>, next: int, names: seq<string>)
    ensures var r := Resolve(tags, next, names);
            && (r.Err? ==> r.code == InternalError)
            && (r.Err? <==> exists i :: 0 <= i < |names| && |names[i]| > TagNameLength && !Any(tags, Named(names[i])))
    decreases |names|
  {
    if names != [] {
      var n := names[0];
      UnstorableShift(tags, names);
      match FindFirst(tags, Named(n))
      case Some(h) =>
        ResolveFails(tags, next, names[1..]);
      case None =>
        if |n| <= TagNameLength {
          var h := Hashtag(next, n);
          ResolveFails(tags + [h], next + 1, names[1..]);
          UnstorableAppend(tags, h, names[1..]);
        }
    }
  }

  /** Some name of a non-empty list is unstorable exactly when the first is or one of the rest is. */
  lemma UnstorableShift(tags: seq<Hashtag>, names: seq<string>)
    requires names != []
    ensures (exists i :: 0 <= i < |names| && |names[i]| > TagNameLength && !Any(tags, Named(names[i])))
        <==> (|names[0]| > TagNameLength && !Any(tags, Named(names[0])))
             || (exists i :: 0 <= i < |names[1..]| && |names[1..][i]| > TagNameLength && !Any(tags, Named(names[1..][i])))
  {
    if exists i :: 0 <= i < |names| && |names[i]| > TagNameLength && !Any(tags, Named(names[i])) {
      var i :| 0 <= i < |names| && |names[i]| > TagNameLength && !Any(tags, Named(names[i]));
      if i > 0 { assert names[1..][i - 1] == names[i]; }
    }
    if exists i :: 0 <= i < |names[1..]| && |names[1..][i]| > TagNameLength && !Any(tags, Named(names[1..][i])) {
      var i :| 0 <= i < |names[1..]| && |names[1..][i]| > TagNameLength && !Any(tags, Named(names[1..][i]));
      assert names[i + 1] == names[1..][i];
    }
  }

  /** Inserting a storable name does not change which over-long names are missing. */
  lemma UnstorableAppend(tags: seq<Hashtag>, h: Hashtag, names: seq<string>)
    requires |h.name| <= TagNameLength
    ensures (exists i :: 0 <= i < |names| && |names[i]| > TagNameLength && !Any(tags + [h], Named(names[i])))
        <==> (exists i :: 0 <= i < |names| && |names[i]| > TagNameLength && !Any(tags, Named(names[i])))
  {
    forall x | |x| > TagNameLength ensures Any(tags + [h], Named(x)) == Any(tags, Named(x)) {
      AnyAppendOther(tags, h, x);
    }
  }

  lemma AnyAppendOther(tags: seq<Hashtag>, h: Hashtag, x: string)
    requires x != h.name
    ensures Any(tags + [h], Named(x)) == Any(tags, Named(x))
  {
    if Any(tags + [h], Named(x)) {
      var k :| 0 <= k < |tags + [h]| && Named(x)((tags + [h])[k]);
      assert k < |tags|;
      assert Named(x)(tags[k]);
    }
    if Any(tags, Named(x)) {
      var k :| 0 <= k < |tags| && Named(x)(tags[k]);
      assert (tags + [h])[k] == tags[k];
    }
  }

  /** A name already in the table is reused: its record is the existing row. */
  lemma ExistingTagReused(tags: seq<Hashtag>, next: int, names: seq<string>, i: nat, h: Hashtag)
    requires Serial(tags, HashtagKey(), next) && UniqueTagNames(tags)
    requires 0 <= i < |names| && h in tags && h.name == names[i]
    requires Resolve(tags, next, names).Ok?
    ensures Resolve(tags, next, names).value.records[i] == h
  {
    ResolveFacts(tags, next, names);
    var v := Resolve(tags, next, names).value;
    var a :| 0 <= a < |v.tags| && v.tags[a] == v.records[i];
    var b :| 0 <= b < |tags| && tags[b] == h;
    assert v.tags[b] == h;
    assert a == b;
  }

  // ---------------------------------------------------------------------------------------------
  // create: the transaction

  /** What `create` commits: the new tables and the inserted post, which it returns. */
  datatype Created = Created(tables: Tables, post: Post)

  /** One `post_hashtags` row per record, in order. */
  function Links(postId: int, records: seq<Hashtag>): (r: seq<PostHashtag>)
    ensures |r| == |records|
    ensures forall i :: 0 <= i < |r| ==> r[i] == PostHashtag(postId, records[i].id)
  {
    Map(records, (h: Hashtag) => PostHashtag(postId, h.id))
  }

  /**
   * `postRouter.create`: content of at least one character (input validation) and at most
   * `varchar(256)`; the post row; then, for a non-empty tag list, the find-or-create of each
   * normalised tag and one link row per element of the list. Any failure rolls back the whole
   * transaction.
   */
  function CreateSpec(t: Tables, caller: UserId, content: string, hashtags: Option<seq<string>>, now: int): Result<Created> {
    if |content| < 1 then Err(BadRequest)
    else if |content| > PostContentLength then Err(InternalError)
    else
      var post := Post(t.nextPostId, content, 0, 0, caller, now);
      var t1 := t.(posts := t.posts + [post], nextPostId := t.nextPostId + 1);
      if hashtags.None? || |hashtags.value| == 0 then Ok(Created(t1, post))
      else
        match Resolve(t1.hashtags, t1.nextHashtagId, Map(hashtags.value, NormalizeAll()))
        case Err(e) => Err(e)
        case Ok(v) =>
          Ok(Created(WithLinks(t1, post.id, v), post))
  }

  /** The tables after the lookups, with one link row per record from the post. */
  function WithLinks(t1: Tables, postId: int, v: Resolved): Tables {
    t1.(hashtags := v.tags, nextHashtagId := v.next, postHashtags := t1.postHashtags + Links(postId, v.records))
  }

  /** With a record per tag carrying its normalised name, link `i` joins the post to a hashtag named `Normalize(tags[i])`. */
  lemma LinksNamed(t1: Tables, postId: int, v: Resolved, tags: seq<string>)
    requires |v.records| == |tags|
    requires forall i :: 0 <= i < |tags| ==> v.records[i] in v.tags && v.records[i].name == Normalize(tags[i])
    ensures var t' := WithLinks(t1, postId, v);
            && |t'.postHashtags| == |t1.postHashtags| + |tags| && t'.postHashtags[..|t1.postHashtags|] == t1.postHashtags
            && forall i :: 0 <= i < |tags| ==>
                 var link := t'.postHashtags[|t1.postHashtags| + i];
                 link.postId == postId && exists h :: h in t'.hashtags && h.id == link.hashtagId && h.name == Normalize(tags[i])
  {
    var t' := WithLinks(t1, postId, v);
    var links := Links(postId, v.records);
    forall i | 0 <= i < |tags|
      ensures var link := t'.postHashtags[|t1.postHashtags| + i];
              link.postId == postId && exists h :: h in t'.hashtags && h.id == link.hashtagId && h.name == Normalize(tags[i])
    {
      assert t'.postHashtags[|t1.postHashtags| + i] == links[i];
      assert v.records[i] in t'.hashtags;
    }
  }

  method Create(db: Database, caller: UserId, content: string, hashtags: Option<seq<string>>, now: int) returns (r: Result<Post>)
    requires Valid(db.tables)
    modifies db
    ensures var spec := CreateSpec(old(db.tables), caller, content, hashtags, now);
            && (spec.Ok? ==> r == Ok(spec.value.post) && db.tables == spec.value.tables)
            && (spec.Err? ==> r == Err(spec.code) && db.tables == old(db.tables))
    ensures Valid(db.tables)
  {
    if |content| < 1 {
      return Err(BadRequest);
    }
    if |content| > PostContentLength {
      return Err(InternalError);
    }
    var tx := db.tables;
    var post := Post(tx.nextPostId, content, 0, 0, caller, now);
    tx := tx.(posts := tx.posts + [post], nextPostId := tx.nextPostId + 1);
    if hashtags.Some? && |hashtags.value| > 0 {
      var normalizedTags := Map(hashtags.value, NormalizeAll());
      var hashtagRecords := FindOrCreate(tx, normalizedTags);
      if hashtagRecords.Err? {
        return Err(hashtagRecords.code);
      }
      tx := tx.(hashtags := hashtagRecords.value.tags, nextHashtagId := hashtagRecords.value.next,
                postHashtags := tx.postHashtags + Links(post.id, hashtagRecords.value.records));
    }
    CreateValid(db.tables, caller, content, hashtags, now);
    db.tables := tx;
    return Ok(post);
  }

  /** Rows with every old hashtag as a prefix keep every hashtag id present. */
  lemma PrefixKeepsHashtagIds(tags: seq<Hashtag>, tags': seq<Hashtag>)
    requires |tags| <= |tags'| && tags'[..|tags|] == tags
    ensures forall id :: HashtagExists(tags, id) ==> HashtagExists(tags', id)
  {
    forall id | HashtagExists(tags, id) ensures HashtagExists(tags', id) {
      var i :| 0 <= i < |tags| && tags[i].id == id;
      assert tags'[i] == tags[i];
    }
  }

  /** Appending link rows whose post and hashtag exist keeps the foreign keys. */
  lemma LinksKeepRefs(t: Tables, links: seq<PostHashtag>)
    requires Refs(t)
    requires forall i :: 0 <= i < |links| ==> PostExists(t.posts, links[i].postId) && HashtagExists(t.hashtags, links[i].hashtagId)
    ensures Refs(t.(postHashtags := t.postHashtags + links))
  {
    var t' := t.(postHashtags := t.postHashtags + links);
    forall i | 0 <= i < |t'.postHashtags|
      ensures PostExists(t'.posts, t'.postHashtags[i].postId) && HashtagExists(t'.hashtags, t'.postHashtags[i].hashtagId)
    {
      if i < |t.postHashtags| {
        assert t'.postHashtags[i] == t.postHashtags[i];
      } else {
        assert t'.postHashtags[i] == links[i - |t.postHashtags|];
      }
    }
  }

  /** The post insert keeps the constraints. */
  lemma PostInsertValid(t: Tables, post: Post)
    requires Valid(t) && post.id == t.nextPostId
    ensures Valid(t.(posts := t.posts + [post], nextPostId := t.nextPostId + 1))
  {
    var t1 := t.(posts := t.posts + [post], nextPostId := t.nextPostId + 1);
    AppendKeepsSerial(t.posts, PostKey(), t.nextPostId, post);
    assert Keys(t1);
    SamePostIds(t.posts, t1.posts);
    assert KeepsIds(t, t1);
    KeepsIdsKeepsRefs(t, t1);
  }

  /** The lookups and the link rows keep the constraints. */
  lemma TagsValid(t1: Tables, post: Post, v: Resolved, names: seq<string>)
    requires Valid(t1) && post in t1.posts
    requires Resolve(t1.hashtags, t1.nextHashtagId, names) == Ok(v)
    ensures Valid(t1.(hashtags := v.tags, nextHashtagId := v.next, postHashtags := t1.postHashtags + Links(post.id, v.records)))
  {
    ResolveFacts(t1.hashtags, t1.nextHashtagId, names);
    HashtagsGrowValid(t1, v.tags, v.next);
    var t2 := t1.(hashtags := v.tags, nextHashtagId := v.next);
    LinksExist(t2.posts, v.tags, post, v.records);
    LinksKeepValid(t2, Links(post.id, v.records));
  }

  /** A hashtags table that keeps the old rows as a prefix and its own keys keeps the constraints. */
  lemma HashtagsGrowValid(t: Tables, tags: seq<Hashtag>, next: int)
    requires Valid(t) && Serial(tags, HashtagKey(), next) && UniqueTagNames(tags)
    requires |t.hashtags| <= |tags| && tags[..|t.hashtags|] == t.hashtags
    ensures Valid(t.(hashtags := tags, nextHashtagId := next))
  {
    var t2 := t.(hashtags := tags, nextHashtagId := next);
    assert Keys(t2);
    PrefixKeepsHashtagIds(t.hashtags, tags);
    assert KeepsIds(t, t2);
    KeepsIdsKeepsRefs(t, t2);
  }

  /** The link rows of a stored post to stored hashtags refer to existing rows. */
  lemma LinksExist(posts: seq<Post>, tags: seq<Hashtag>, post: Post, records: seq<Hashtag>)
    requires post in posts && forall i :: 0 <= i < |records| ==> records[i] in tags
    ensures var links := Links(post.id, records);
            forall i :: 0 <= i < |links| ==> PostExists(posts, links[i].postId) && HashtagExists(tags, links[i].hashtagId)
  {
    var links := Links(post.id, records);
    forall i | 0 <= i < |links| ensures PostExists(posts, links[i].postId) && HashtagExists(tags, links[i].hashtagId) {
      var k :| 0 <= k < |posts| && posts[k] == post;
      var m :| 0 <= m < |tags| && tags[m] == records[i];
    }
  }

  /** Appending link rows that refer to existing rows keeps the constraints. */
  lemma LinksKeepValid(t: Tables, links: seq<PostHashtag>)
    requires Valid(t)
    requires forall i :: 0 <= i < |links| ==> PostExists(t.posts, links[i].postId) && HashtagExists(t.hashtags, links[i].hashtagId)
    ensures Valid(t.(postHashtags := t.postHashtags + links))
  {
    LinksKeepRefs(t, links);
  }

  /** What `create` commits satisfies the schema's constraints. */
  lemma CreateValid(t: Tables, caller: UserId, content: string, hashtags: Option<seq<string>>, now: int)
    requires Valid(t)
    ensures CreateSpec(t, caller, content, hashtags, now).Ok? ==> Valid(CreateSpec(t, caller, content, hashtags, now).value.tables)
  {
    if CreateSpec(t, caller, content, hashtags, now).Ok? {
      var post := Post(t.nextPostId, content, 0, 0, caller, now);
      var t1 := t.(posts := t.posts + [post], nextPostId := t.nextPostId + 1);
      PostInsertValid(t, post);
      if hashtags.Some? && |hashtags.value| > 0 {
        var names := Map(hashtags.value, NormalizeAll());
        var v := Resolve(t1.hashtags, t1.nextHashtagId, names).value;
        assert post in t1.posts by { assert t1.posts[|t.posts|] == post; }
        TagsValid(t1, post, v, names);
      }
    }
  }

  /**
   * `create` rejects empty content, fails on content past `varchar(256)`, and with an absent or empty
   * tag list inserts only the post row: a post with the next id, the caller as author, zero counters,
   * which it returns.
   */
  lemma CreateWithoutTags(t: Tables, caller: UserId, content: string, hashtags: Option<seq<string>>, now: int)
    ensures |content| < 1 ==> CreateSpec(t, caller, content, hashtags, now) == Err(BadRequest)
    ensures |content| > PostContentLength ==> CreateSpec(t, caller, content, hashtags, now) == Err(InternalError)
    ensures 1 <= |content| <= PostContentLength && (hashtags.None? || hashtags.value == []) ==>
              var r := CreateSpec(t, caller, content, hashtags, now);
              && r.Ok?
              && r.value.post == Post(t.nextPostId, content, 0, 0, caller, now)
              && r.value.tables == t.(posts := t.posts + [r.value.post], nextPostId := t.nextPostId + 1)
  {
  }

  /** With a non-empty tag list, `create` fails exactly when a normalised tag is missing from the table and too long. */
  lemma CreateWithTagsFails(t: Tables, caller: UserId, content: string, tags: seq<string>, now: int)
    requires 1 <= |content| <= PostContentLength && |tags| > 0
    ensures var r := CreateSpec(t, caller, content, Some(tags), now);
            && (r.Err? <==> exists i :: 0 <= i < |tags| && |Normalize(tags[i])| > TagNameLength && !Any(t.hashtags, Named(Normalize(tags[i]))))
            && (r.Err? ==> r.code == InternalError)
  {
    var names := Map(tags, NormalizeAll());
    ResolveFails(t.hashtags, t.nextHashtagId, names);
  }

  /**
   * A successful `create` with a non-empty tag list adds the post and keeps every old hashtag;
   * likes, reposts, bookmarks, comments, users and notifications are unchanged.
   */
  lemma CreateWithTags(t: Tables, caller: UserId, content: string, tags: seq<string>, now: int)
    requires Serial(t.hashtags, HashtagKey(), t.nextHashtagId) && UniqueTagNames(t.hashtags)
    requires 1 <= |content| <= PostContentLength && |tags| > 0
    ensures var r := CreateSpec(t, caller, content, Some(tags), now);
            r.Ok? ==>
              var t' := r.value.tables;
              && r.value.post == Post(t.nextPostId, content, 0, 0, caller, now)
              && t'.posts == t.posts + [r.value.post]
              && |t.hashtags| <= |t'.hashtags| && t'.hashtags[..|t.hashtags|] == t.hashtags
              && t'.users == t.users && t'.comments == t.comments && t'.likes == t.likes
              && t'.reposts == t.reposts && t'.bookmarks == t.bookmarks && t'.notifications == t.notifications
  {
    var names := Map(tags, NormalizeAll());
    if CreateSpec(t, caller, content, Some(tags), now).Ok? {
      ResolveKeeps(t.hashtags, t.nextHashtagId, names);
    }
  }

  /**
   * A successful `create` with a non-empty tag list keeps every old link row and adds one link per
   * list element, in order, from the new post to a hashtag whose name is that element normalised.
   * Duplicate tags give duplicate links.
   */
  lemma CreateLinks(t: Tables, caller: UserId, content: string, tags: seq<string>, now: int)
    requires Serial(t.hashtags, HashtagKey(), t.nextHashtagId) && UniqueTagNames(t.hashtags)
    requires 1 <= |content| <= PostContentLength && |tags| > 0
    ensures var r := CreateSpec(t, caller, content, Some(tags), now);
            r.Ok? ==>
              var t' := r.value.tables;
              && |t'.postHashtags| == |t.postHashtags| + |tags| && t'.postHashtags[..|t.postHashtags|] == t.postHashtags
              && (forall i :: 0 <= i < |tags| ==>
                    var link := t'.postHashtags[|t.postHashtags| + i];
                    link.postId == t.nextPostId
                    && exists h :: h in t'.hashtags && h.id == link.hashtagId && h.name == Normalize(tags[i]))
  {
    var names := Map(tags, NormalizeAll());
    if CreateSpec(t, caller, content, Some(tags), now).Ok? {
      var post := Post(t.nextPostId, content, 0, 0, caller, now);
      var t1 := t.(posts := t.posts + [post], nextPostId := t.nextPostId + 1);
      var v := CreateTagged(t, caller, content, tags, now);
      ResolveRecords(t.hashtags, t.nextHashtagId, names);
      forall i | 0 <= i < |tags| ensures v.records[i] in v.tags && v.records[i].name == Normalize(tags[i]) {
        assert names[i] == Normalize(tags[i]);
      }
      LinksNamed(t1, t.nextPostId, v, tags);
    }
  }

  /** A successful `create` with tags commits the post row, the lookups and their links. */
  lemma CreateTagged(t: Tables, caller: UserId, content: string, tags: seq<string>, now: int) returns (v: Resolved)
    requires 1 <= |content| <= PostContentLength && |tags| > 0
    requires CreateSpec(t, caller, content, Some(tags), now).Ok?
    ensures Resolve(t.hashtags, t.nextHashtagId, Map(tags, NormalizeAll())) == Ok(v)
    ensures var post := Post(t.nextPostId, content, 0, 0, caller, now);
            CreateSpec(t, caller, content, Some(tags), now).value
              == Created(WithLinks(t.(posts := t.posts + [post], nextPostId := t.nextPostId + 1), t.nextPostId, v), post)
  {
    v := Resolve(t.hashtags, t.nextHashtagId, Map(tags, NormalizeAll())).value;
  }

  // ---------------------------------------------------------------------------------------------
  // getTrending and getPostsByTag

  /** `.limit(input.limit || 5)`; Postgres refuses a negative limit. */
  function TrendingLimit(limit: Option<int>): (r: Result<nat>)
    ensures limit.None? || limit == Some(0) ==> r == Ok(5)
    ensures limit.Some? && limit.value > 0 ==> r == Ok(limit.value)
    ensures limit.Some? && limit.value < 0 ==> r == Err(InternalError)
  {
    var n := if limit.None? || limit.value == 0 then 5 else limit.value;
    if n < 0 then Err(InternalError) else Ok(n)
  }

  function AnyTag(): Hashtag -> bool {
    (h: Hashtag) => true
  }

  /** `getTrending`: every hashtag with its distinct-post count, largest count first, up to the limit. */
  function GetTrending(t: Tables, limit: Option<int>): (r: Result<seq<TagCount>>)
    ensures r.Ok? ==> TrendingLimit(limit).Ok? && |r.value| <= TrendingLimit(limit).value
  {
    match TrendingLimit(limit)
    case Err(e) => Err(e)
    case Ok(n) => Ok(Map(Fetch(t.hashtags, AnyTag(), PostCount(t), n), CountOfTag(t)))
  }

  /**
   * `getTrending` lists tags by non-increasing distinct-post count; a tag left out counts no more
   * posts than any tag listed, and then the list is full.
   */
  lemma TrendingTop(t: Tables, limit: Option<int>, h: Hashtag)
    requires h in t.hashtags && TrendingLimit(limit).Ok?
    ensures var r := GetTrending(t, limit).value;
            && (forall i, j :: 0 <= i < j < |r| ==> r[i].count >= r[j].count)
            && (CountOfTag(t)(h) in r
                || (|r| == TrendingLimit(limit).value && forall i :: 0 <= i < |r| ==> r[i].count >= PostCount(t)(h)))
  {
    var n := TrendingLimit(limit).value;
    assert GetTrending(t, limit).value == Map(Fetch(t.hashtags, AnyTag(), PostCount(t), n), CountOfTag(t));
    TopCounts(t, AnyTag(), n, h);
  }

  /** The left join counts a tag without link rows as 0, and a tag linked to some post as at least 1. */
  lemma TrendingCounts(t: Tables, h: Hashtag)
    ensures (forall i :: 0 <= i < |t.postHashtags| ==> t.postHashtags[i].hashtagId != h.id) ==> PostCount(t)(h) == 0
    ensures (exists i :: 0 <= i < |t.postHashtags| && t.postHashtags[i].hashtagId == h.id) ==> PostCount(t)(h) >= 1
  {
    if exists i :: 0 <= i < |t.postHashtags| && t.postHashtags[i].hashtagId == h.id {
      var i :| 0 <= i < |t.postHashtags| && t.postHashtags[i].hashtagId == h.id;
      assert t.postHashtags[i].postId in DistinctPosts(t.postHashtags, h.id);
    } else {
      assert DistinctPosts(t.postHashtags, h.id) == {};
    }
  }

  function TaggedAs(t: Tables, name: string): Post -> bool {
    (p: Post) => Tagged(t, p, [name])
  }

  /** A post in its full view for the caller. */
  function FullView(t: Tables, caller: Option<UserId>): Post -> PostView {
    (p: Post) => ProjectFull(t, p, caller)
  }

  /** `getPostsByTag`: the posts linked to the hashtag named by the lower-cased tag, newest first, in their full view. */
  function GetPostsByTag(t: Tables, caller: Option<UserId>, tag: string): (r: seq<PostView>)
    ensures |r| == |Filter(t.posts, TaggedAs(t, LowerStr(tag)))|
  {
    Map(SortDesc(Filter(t.posts, TaggedAs(t, LowerStr(tag))), CreatedAtKey()), FullView(t, caller))
  }

  /** Every post `getPostsByTag` lists is a post of the table tagged with the lower-cased tag. */
  lemma PostsByTagSound(t: Tables, caller: Option<UserId>, tag: string)
    ensures var r := GetPostsByTag(t, caller, tag);
            forall i :: 0 <= i < |r| ==> exists p :: p in t.posts && Tagged(t, p, [LowerStr(tag)]) && r[i] == ProjectFull(t, p, caller)
  {
    var f := TaggedAs(t, LowerStr(tag));
    var sorted := SortDesc(Filter(t.posts, f), CreatedAtKey());
    var r := GetPostsByTag(t, caller, tag);
    forall i | 0 <= i < |r| ensures exists p :: p in t.posts && Tagged(t, p, [LowerStr(tag)]) && r[i] == ProjectFull(t, p, caller) {
      ListedIsKept(t.posts, f, CreatedAtKey(), FullView(t, caller), i);
      assert f(sorted[i]) && r[i] == FullView(t, caller)(sorted[i]);
    }
  }

  /** Every post of the table tagged with the lower-cased tag is listed by `getPostsByTag`. */
  lemma PostsByTagComplete(t: Tables, caller: Option<UserId>, tag: string, p: Post)
    requires p in t.posts && Tagged(t, p, [LowerStr(tag)])
    ensures ProjectFull(t, p, caller) in GetPostsByTag(t, caller, tag)
  {
    var f := TaggedAs(t, LowerStr(tag));
    assert f(p);
    KeptAreListed(t.posts, f, CreatedAtKey(), FullView(t, caller), p);
  }

  /** Each entry of a filtered, sorted and mapped list is the image of a kept row. */
  lemma ListedIsKept<T, U>(s: seq<T>, f: T -> bool, key: T -> int, g: T -> U, i: int)
    requires 0 <= i < |Filter(s, f)|
    ensures var sorted := SortDesc(Filter(s, f), key);
            sorted[i] in s && f(sorted[i]) && Map(sorted, g)[i] == g(sorted[i])
  {
    var sorted := SortDesc(Filter(s, f), key);
    SortDescSameRows(Filter(s, f), key, sorted[i]);
  }

  /** The image of every kept row is in a filtered, sorted and mapped list. */
  lemma KeptAreListed<T, U>(s: seq<T>, f: T -> bool, key: T -> int, g: T -> U, x: T)
    requires x in s && f(x)
    ensures g(x) in Map(SortDesc(Filter(s, f), key), g)
  {
    var matching := Filter(s, f);
    var sorted := SortDesc(matching, key);
    assert x in matching;
    SortDescSameRows(matching, key, x);
    var m :| 0 <= m < |sorted| && sorted[m] == x;
    assert Map(sorted, g)[m] == g(x);
  }

  /** `getPostsByTag` lists newest first. */
  lemma PostsByTagNewestFirst(t: Tables, caller: Option<UserId>, tag: string)
    ensures var r := GetPostsByTag(t, caller, tag);
            forall i, j :: 0 <= i < j < |r| ==> r[i].createdAt >= r[j].createdAt
  {
    var sorted := SortDesc(Filter(t.posts, TaggedAs(t, LowerStr(tag))), CreatedAtKey());
    var r := GetPostsByTag(t, caller, tag);
    forall i, j | 0 <= i < j < |r| ensures r[i].createdAt >= r[j].createdAt {
      assert CreatedAtKey()(sorted[i]) >= CreatedAtKey()(sorted[j]);
    }
  }
}
