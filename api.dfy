/**
 * The client of the manga web API (pkg/mangarock/api.go, copied in the root mangarock.go
 * and utils.go), from the decoded replies on.
 *
 * The server is an oracle: for each endpoint, a function from the request argument to what
 * came back. `Reply.Answered(code, data)` is a decoded `{code, data}` envelope whose `data`
 * is `None` when it does not unmarshal into the type the caller asks for; the other replies
 * are the transport failures of `post` and `get`. Errors are a tree of causes with the
 * context strings `errors.Wrap` adds.
 */
module Api {
  import opened Outcomes
  import opened Records

  const APIURL: string := "https://api.mangarockhd.com/query/web401"
  const APIMETAURL: string := "https://api.mangarockhd.com/meta"

  // ---------------------------------------------------------------------------
  // Replies, errors and the response-code gate of post and get
  // ---------------------------------------------------------------------------

  /** What a request delivers once the transport and the envelope decoding are done. */
  datatype Reply<+T> =
    | NotBuilt                                 // http.NewRequest failed
    | Unreachable                              // client.Do failed
    | Garbled                                  // the {code, data} envelope did not decode
    | Answered(code: int, data: Option<T>)

  datatype Verb = Post | Get

  datatype ApiError =
    | HttpError                                // an error of the HTTP layer
    | JsonError                                // an error of encoding/json
    | ResponseCode(code: int)                  // "Response code %d"
    | Message(text: string)                    // errors.New / errors.Errorf
    | IndexOutOfRange                          // a runtime panic on an index
    | Wrapped(context: string, cause: ApiError)

  /** The replies of each endpoint, by request argument. */
  datatype Server = Server(
    latest: Reply<seq<Manga>>,
    mangaMeta: seq<string> -> Reply<map<string, Manga>>,
    authorMeta: seq<string> -> Reply<map<string, Author>>,
    info: string -> Reply<MangaSingle>,
    pages: string -> Reply<seq<string>>,
    related: string -> Reply<seq<SeriesRef>>,
    search: string -> Reply<seq<string>>)

  /** `post` / `get`: the reply's data, exactly when the decoded code is 0. */
  function Send<T>(verb: Verb, url: string, reply: Reply<T>): (r: Result<Option<T>, ApiError>)
    ensures r.Ok? <==> reply.Answered? && reply.code == 0
    ensures r.Ok? ==> r.value == reply.data
    ensures reply.Answered? && reply.code != 0 ==> r == Err(ResponseCode(reply.code))
    ensures !reply.Answered? ==>
      r.Err? && r.error.Wrapped? && r.error.cause == (if reply.Garbled? then JsonError else HttpError)
  {
    match reply
    case NotBuilt =>
      Err(Wrapped(if verb == Post then "Could not create Post request." else "Could not create the GET request.", HttpError))
    case Unreachable =>
      Err(Wrapped(if verb == Post then "Could not post to " + url + " ." else "Could not GET " + url, HttpError))
    case Garbled =>
      Err(Wrapped(if verb == Post then "Could not decode response." else "Could not decode response", JsonError))
    case Answered(code, data) =>
      if code != 0 then Err(ResponseCode(code)) else Ok(data)
  }

  /**
   * A caller's handling of `post` / `get` and `json.Unmarshal`: a failed request is returned
   * wrapped in `context` (as it is when `context` is None), data that does not unmarshal
   * becomes a JSON error wrapped in `unmarshalContext`.
   */
  function Decode<T>(sent: Result<Option<T>, ApiError>, context: Option<string>, unmarshalContext: string): Result<T, ApiError> {
    match sent
    case Err(e) => Err(if context.Some? then Wrapped(context.value, e) else e)
    case Ok(None) => Err(Wrapped(unmarshalContext, JsonError))
    case Ok(Some(v)) => Ok(v)
  }

  /** The manga records the meta endpoint returns for `ids`, as `mangasByIDs` decodes them. */
  function MangaMap(server: Server, ids: seq<string>): Result<map<string, Manga>, ApiError> {
    Decode(Send(Post, APIMETAURL, server.mangaMeta(ids)),
      Some("Could not get meta data by manga ids"), "Could not unmarshal mangas by ids")
  }

  /** The author records the meta endpoint returns for `ids`, as `authorsByIDs` decodes them. */
  function AuthorMap(server: Server, ids: seq<string>): Result<map<string, Author>, ApiError> {
    Decode(Send(Post, APIMETAURL, server.authorMeta(ids)),
      Some("Could not get meta data by author ids"), "Could not unmarshal authors by ids")
  }

  // ---------------------------------------------------------------------------
  // mangasByIDs: the records of the ids the map has, in the order of the ids
  // ---------------------------------------------------------------------------

  /** The records of `ids` that `m` has, in `ids` order; an id listed twice is kept twice. */
  function Found(ids: seq<string>, m: map<string, Manga>): (r: seq<Manga>)
    ensures |r| <= |ids|
  {
    if ids == [] then []
    else
      var last := ids[|ids| - 1];
      Found(ids[..|ids| - 1], m) + (if last in m then [m[last]] else [])
  }

  /** The lookup keeps order: the records of `a + b` are those of `a` followed by those of `b`. */
  lemma {:induction false} FoundAppend(a: seq<string>, b: seq<string>, m: map<string, Manga>)
    ensures Found(a + b, m) == Found(a, m) + Found(b, m)
    decreases |b|
  {
    if b != [] {
      var b' := b[..|b| - 1];
      assert (a + b)[..|a + b| - 1] == a + b';
      FoundAppend(a, b', m);
    } else {
      assert a + b == a;
    }
  }

  /** A record is returned exactly when some listed id maps to it. */
  lemma {:induction false} FoundMembers(ids: seq<string>, m: map<string, Manga>, x: Manga)
    ensures x in Found(ids, m) <==> exists i :: 0 <= i < |ids| && ids[i] in m && m[ids[i]] == x
    decreases |ids|
  {
    if ids != [] {
      var init, last := ids[..|ids| - 1], ids[|ids| - 1];
      FoundMembers(init, m, x);
      assert Found(ids, m) == Found(init, m) + (if last in m then [m[last]] else []);
      if x in Found(ids, m) {
        if x in Found(init, m) {
          var i :| 0 <= i < |init| && init[i] in m && m[init[i]] == x;
          assert ids[i] == init[i];
        } else {
          assert ids[|ids| - 1] in m && m[ids[|ids| - 1]] == x;
        }
      }
      if exists i :: 0 <= i < |ids| && ids[i] in m && m[ids[i]] == x {
        var i :| 0 <= i < |ids| && ids[i] in m && m[ids[i]] == x;
        if i < |init| {
          assert init[i] == ids[i];
        }
      }
    }
  }

  /** No id is skipped exactly when every id is known; then result `i` is the record of id `i`. */
  lemma {:induction false} FoundAllKnown(ids: seq<string>, m: map<string, Manga>)
    ensures |Found(ids, m)| == |ids| <==> forall i :: 0 <= i < |ids| ==> ids[i] in m
    ensures |Found(ids, m)| == |ids| ==> forall i :: 0 <= i < |ids| ==> Found(ids, m)[i] == m[ids[i]]
    decreases |ids|
  {
    if ids != [] {
      var init := ids[..|ids| - 1];
      FoundAllKnown(init, m);
      if forall i :: 0 <= i < |ids| ==> ids[i] in m {
        assert forall i :: 0 <= i < |init| ==> init[i] in m by {
          forall i | 0 <= i < |init| ensures init[i] in m {
            assert init[i] == ids[i];
          }
        }
      }
    }
  }

  // ---------------------------------------------------------------------------
  // authorsByIDs: the values of a Go map, in no particular order
  // ---------------------------------------------------------------------------

  /** Some key of a non-empty map. */
  ghost function Pick<V>(m: map<string, V>): (k: string)
    requires m != map[]
    ensures k in m
  {
    var k :| k in m; k
  }

  /** Removing a key of a map removes one entry. */
  lemma Shrink<V>(m: map<string, V>, k: string)
    requires k in m
    ensures |m - {k}| == |m| - 1
  {
    assert (m - {k}).Keys == m.Keys - {k};
  }

  /** Removing two keys one after the other does not depend on the order. */
  lemma RemoveBoth<V>(m: map<string, V>, j: string, k: string)
    ensures m - {j} - {k} == m - {k} - {j}
  {
    var a, b := m - {j} - {k}, m - {k} - {j};
    assert a.Keys == m.Keys - {j, k} == b.Keys;
    assert forall x :: x in a ==> a[x] == m[x] == b[x];
  }

  /** The values of `m`, with multiplicity. */
  ghost function Bag<V>(m: map<string, V>): multiset<V>
    decreases |m|
  {
    if m == map[] then multiset{}
    else
      var k := Pick(m);
      Shrink(m, k);
      Bag(m - {k}) + multiset{m[k]}
  }

  /** Taking out any one key takes out its value, whichever key `Bag` picks first. */
  lemma {:induction false} BagRemove<V>(m: map<string, V>, k: string)
    requires k in m
    ensures Bag(m) == Bag(m - {k}) + multiset{m[k]}
    decreases |m|
  {
    var j := Pick(m);
    if j != k {
      Shrink(m, j);
      Shrink(m, k);
      var mj, mk := m - {j}, m - {k};
      assert k in mj && mj[k] == m[k];
      assert j in mk && mk[j] == m[j];
      assert Bag(m) == Bag(mj) + multiset{m[j]};
      BagRemove(mj, k);
      BagRemove(mk, j);
      var rest := mj - {k};
      RemoveBoth(m, j, k);
      calc {
        Bag(m);
        Bag(rest) + multiset{m[k]} + multiset{m[j]};
        Bag(rest) + multiset{m[j]} + multiset{m[k]};
        Bag(mk) + multiset{m[k]};
      }
    }
  }

  /** A value is in the bag exactly when some key maps to it, and the bag has one value per key. */
  lemma {:induction false} BagValues<V>(m: map<string, V>, x: V)
    ensures x in Bag(m) <==> exists k :: k in m && m[k] == x
    ensures |Bag(m)| == |m|
    decreases |m|
  {
    if m != map[] {
      var k := Pick(m);
      Shrink(m, k);
      var rest := m - {k};
      BagValues(rest, x);
      if x in Bag(rest) {
        var j :| j in rest && rest[j] == x;
        assert j in m && m[j] == x;
      }
      if exists j :: j in m && m[j] == x {
        var j :| j in m && m[j] == x;
        if j != k {
          assert j in rest && rest[j] == x;
        }
      }
    }
  }

  /** `authors` lists the values of `m`, each as often as it occurs, in some order. */
  ghost predicate Listing(authors: seq<Author>, m: map<string, Author>) {
    multiset(authors) == Bag(m)
  }

  /** The `for _, v := range m` loop that appends each value of `m`: every value once per key, in some order. */
  method ValuesOf(m: map<string, Author>) returns (authors: seq<Author>)
    ensures Listing(authors, m)
  {
    var rest := m;
    authors := [];
    while rest != map[]
      invariant multiset(authors) + Bag(rest) == Bag(m)
      decreases |rest|
    {
      var k :| k in rest;
      BagRemove(rest, k);
      assert (rest - {k}).Keys == rest.Keys - {k};
      authors := authors + [rest[k]];
      rest := rest - {k};
    }
  }

  // ---------------------------------------------------------------------------
  // addAuthors: the author index and the enrichment of each manga
  // ---------------------------------------------------------------------------

  /** The author ids of `mangas`, concatenated in order. */
  function AllAuthorIds(mangas: seq<Manga>): seq<string> {
    if mangas == [] then [] else AllAuthorIds(mangas[..|mangas| - 1]) + mangas[|mangas| - 1].authorIds
  }

  /** `authorMap` of `addAuthors`: each author under its own id, a later one replacing an earlier. */
  function IndexById(authors: seq<Author>): (index: map<string, Author>)
    ensures index.Keys == set a | a in authors :: a.id
    ensures forall id :: id in index ==> index[id] in authors && index[id].id == id
  {
    if authors == [] then map[]
    else
      var last := authors[|authors| - 1];
      var init := IndexById(authors[..|authors| - 1]);
      assert forall a :: a in authors ==> a in authors[..|authors| - 1] || a == last;
      init[last.id := last]
  }

  /** The author at position `j` is the one indexed when no later author has its id. */
  lemma {:induction false} IndexByIdLast(authors: seq<Author>, j: nat)
    requires j < |authors|
    requires forall l :: j < l < |authors| ==> authors[l].id != authors[j].id
    ensures IndexById(authors)[authors[j].id] == authors[j]
    decreases |authors|
  {
    if j < |authors| - 1 {
      var init := authors[..|authors| - 1];
      assert init[j] == authors[j];
      IndexByIdLast(init, j);
    }
  }

  /** The author the server keys by `k` carries the id `k`. */
  predicate KeyedById(m: map<string, Author>) {
    forall k :: k in m ==> m[k].id == k
  }

  /**
   * When the server keys each author by its own id, the index `addAuthors` builds from the
   * listed values is the server's map itself, whatever order the values came in.
   */
  lemma IndexOfListing(m: map<string, Author>, authors: seq<Author>)
    requires KeyedById(m)
    requires Listing(authors, m)
    ensures IndexById(authors) == m
  {
    var index := IndexById(authors);
    forall a | a in authors ensures a.id in m && m[a.id] == a {
      assert a in multiset(authors);
      BagValues(m, a);
    }
    forall k | k in m ensures k in index {
      BagValues(m, m[k]);
      assert m[k] in multiset(authors);
    }
  }

  /** The author `addAuthors` appends for `id`: Go's zero `Author` when the index lacks it. */
  function Lookup(index: map<string, Author>, id: string): Author {
    if id in index then index[id] else ZeroAuthor
  }

  /** One appended author per id, in order. */
  function Lookups(ids: seq<string>, index: map<string, Author>): seq<Author> {
    if ids == [] then [] else Lookups(ids[..|ids| - 1], index) + [Lookup(index, ids[|ids| - 1])]
  }

  /** Looking up one more id of a list appends that id's author. */
  lemma LookupsStep(ids: seq<string>, j: nat, index: map<string, Author>)
    requires j < |ids|
    ensures Lookups(ids[..j + 1], index) == Lookups(ids[..j], index) + [Lookup(index, ids[j])]
  {
    assert ids[..j + 1][..j] == ids[..j];
  }

  /** A manga after `addAuthors`: its authors grown by its ids' authors, the first one as `author`. */
  function Enriched(m: Manga, index: map<string, Author>): Manga {
    var authors := m.authors + Lookups(m.authorIds, index);
    m.(authors := authors, author := if |authors| == 0 then m.author else authors[0])
  }

  function Enrich(mangas: seq<Manga>, index: map<string, Author>): seq<Manga> {
    seq(|mangas|, i requires 0 <= i < |mangas| => Enriched(mangas[i], index))
  }

  /**
   * `addAuthors` keeps the number of mangas; each manga's authors keep their old entries and
   * grow by one author per author id, in id order (the zero author for an id the index lacks);
   * `author` becomes the first author when there is one and is kept otherwise; no other field
   * changes.
   */
  lemma {:induction false} EnrichShape(mangas: seq<Manga>, index: map<string, Author>, i: nat)
    requires i < |mangas|
    ensures |Enrich(mangas, index)| == |mangas|
    ensures var m, r := mangas[i], Enrich(mangas, index)[i];
      && |r.authors| == |m.authors| + |m.authorIds|
      && r.authors[..|m.authors|] == m.authors
      && (forall j :: 0 <= j < |m.authorIds| ==> r.authors[|m.authors| + j] == Lookup(index, m.authorIds[j]))
      && r.author == (if r.authors == [] then m.author else r.authors[0])
      && r.(authors := m.authors, author := m.author) == m
  {
    var m := mangas[i];
    LookupsShape(m.authorIds, index);
  }

  lemma {:induction false} LookupsShape(ids: seq<string>, index: map<string, Author>)
    ensures |Lookups(ids, index)| == |ids|
    ensures forall j :: 0 <= j < |ids| ==> Lookups(ids, index)[j] == Lookup(index, ids[j])
    decreases |ids|
  {
    if ids != [] {
      LookupsShape(ids[..|ids| - 1], index);
    }
  }

  /**
   * Once every manga has been enriched, looking its authors up again adds them again:
   * `addAuthors` is not idempotent on a manga with author ids.
   */
  lemma EnrichTwiceGrows(m: Manga, index: map<string, Author>)
    requires m.authorIds != []
    ensures |Enriched(Enriched(m, index), index).authors| > |Enriched(m, index).authors|
  {
    LookupsShape(m.authorIds, index);
  }

  /**
   * What `addAuthors` leaves when its author lookup answers with `m`: the mangas enriched
   * through the index of some listing of `m`'s values.
   */
  ghost predicate Enriches(server: Server, mangas: seq<Manga>, r: Result<seq<Manga>, ApiError>) {
    var am := AuthorMap(server, AllAuthorIds(mangas));
    && (am.Err? ==> r == Err(Wrapped("Could not get authors by ids", am.error)))
    && (am.Ok? ==> r.Ok? && exists authors :: Listing(authors, am.value) && r.value == Enrich(mangas, IndexById(authors)))
  }

  /** When the server keys authors by their ids, the enrichment is determined: the map itself is the index. */
  lemma EnrichesKeyed(server: Server, mangas: seq<Manga>, r: Result<seq<Manga>, ApiError>)
    requires Enriches(server, mangas, r)
    requires var am := AuthorMap(server, AllAuthorIds(mangas)); am.Ok? && KeyedById(am.value)
    ensures r == Ok(Enrich(mangas, AuthorMap(server, AllAuthorIds(mangas)).value))
  {
    var am := AuthorMap(server, AllAuthorIds(mangas)).value;
    var authors :| Listing(authors, am) && r.value == Enrich(mangas, IndexById(authors));
    IndexOfListing(am, authors);
  }

  // ---------------------------------------------------------------------------
  // Chapter lookup, Latest ids, Author assignment
  // ---------------------------------------------------------------------------

  /** The position of the first chapter with id `cid`, if any. */
  function FindChapter(chapters: seq<Chapter>, cid: string): (r: Option<nat>)
    ensures r.Some? ==> r.value < |chapters| && chapters[r.value].id == cid
    ensures r.Some? ==> forall j :: 0 <= j < r.value ==> chapters[j].id != cid
    ensures r.None? <==> forall j :: 0 <= j < |chapters| ==> chapters[j].id != cid
  {
    if chapters == [] then None
    else if chapters[0].id == cid then Some(0)
    else
      match FindChapter(chapters[1..], cid)
      case None => None
      case Some(i) => Some(i + 1)
  }

  /** The ids of the records `xs`, in order, as `id` reads each one. */
  function Ids<T>(xs: seq<T>, id: T -> string): (ids: seq<string>)
    ensures |ids| == |xs|
    ensures forall i :: 0 <= i < |xs| ==> ids[i] == id(xs[i])
  {
    if xs == [] then [] else Ids(xs[..|xs| - 1], id) + [id(xs[|xs| - 1])]
  }

  /** The id of a manga meta record. */
  function MangaId(m: Manga): string { m.id }

  /** The id of a related-series record. */
  function RefId(ref: SeriesRef): string { ref.id }

  /** `mangas` with `author` set to `a` in each. */
  function WithAuthor(mangas: seq<Manga>, a: Author): (r: seq<Manga>)
    ensures |r| == |mangas|
    ensures forall i :: 0 <= i < |r| ==> r[i].author == a && r[i].(author := mangas[i].author) == mangas[i]
  {
    seq(|mangas|, i requires 0 <= i < |mangas| => mangas[i].(author := a))
  }

  // ---------------------------------------------------------------------------
  // New and WithOptions
  // ---------------------------------------------------------------------------

  /** The options `New` accepts; `WithOptions(m)` sets the options map to `m`. */
  datatype ClientOption = WithOptions(options: map<string, string>)

  /** What applying one option does to the options map: `WithOptions` replaces it. */
  function ApplyOption(options: map<string, string>, o: ClientOption): map<string, string> {
    match o
    case WithOptions(m) => m
  }

  /** The options map after applying `opts`, in order, to a client whose map is `initial`. */
  function Configured(initial: map<string, string>, opts: seq<ClientOption>): map<string, string> {
    if opts == [] then initial else ApplyOption(Configured(initial, opts[..|opts| - 1]), opts[|opts| - 1])
  }

  /** Options are applied in sequence: applying `a + b` is applying `a`, then `b`. */
  lemma {:induction false} ConfiguredAppend(initial: map<string, string>, a: seq<ClientOption>, b: seq<ClientOption>)
    ensures Configured(initial, a + b) == Configured(Configured(initial, a), b)
    decreases |b|
  {
    if b == [] {
      assert a + b == a;
    } else {
      assert (a + b)[..|a + b| - 1] == a + b[..|b| - 1];
      ConfiguredAppend(initial, a, b[..|b| - 1]);
    }
  }

  /** With several `WithOptions`, the last one's map wins; with none, the map stays as it was. */
  lemma LastOptionWins(initial: map<string, string>, opts: seq<ClientOption>)
    ensures Configured(initial, opts) == (if opts == [] then initial else opts[|opts| - 1].options)
  {
  }

  // ---------------------------------------------------------------------------
  // The client
  // ---------------------------------------------------------------------------

  /**
   * The API client: the base URL its requests go to and the options map `WithOptions` stores
   * (which nothing reads). The HTTP client it holds is the `server` its operations are given.
   */
  class Client {
    var base: string
    var options: map<string, string>

    /** `New(options...)`: base URL `APIURL`, then each option applied in order. */
    constructor New(opts: seq<ClientOption>)
      ensures base == APIURL
      ensures options == Configured(map[], opts)
    {
      base := APIURL;
      options := map[];
      new;
      var i := 0;
      while i < |opts|
        invariant i <= |opts|
        invariant base == APIURL
        invariant options == Configured(map[], opts[..i])
      {
        Apply(opts[i]);
        assert opts[..i + 1][..i] == opts[..i];
        i := i + 1;
      }
      assert opts[..|opts|] == opts;
    }

    /** Running the closure an option stands for. */
    method Apply(o: ClientOption)
      modifies this
      ensures base == old(base)
      ensures options == ApplyOption(old(options), o)
    {
      match o {
        case WithOptions(m) => options := m;
      }
    }

    /** `mangasByIDs`: the records the meta endpoint has for `ids`, in `ids` order. */
    method MangasByIds(server: Server, ids: seq<string>) returns (r: Result<seq<Manga>, ApiError>)
      ensures var mm := MangaMap(server, ids);
        && (mm.Err? <==> r.Err?)
        && (mm.Err? ==> r.error == mm.error)
        && (mm.Ok? ==> r.value == Found(ids, mm.value))
    {
      var mangaMap := MangaMap(server, ids);
      if mangaMap.Err? {
        return Err(mangaMap.error);
      }
      var m := mangaMap.value;
      var mangas: seq<Manga> := [];
      for i := 0 to |ids|
        invariant mangas == Found(ids[..i], m)
      {
        assert ids[..i + 1][..i] == ids[..i];
        if ids[i] in m {
          mangas := mangas + [m[ids[i]]];
        }
      }
      assert ids[..|ids|] == ids;
      return Ok(mangas);
    }

    /** `authorsByIDs`: the values of the author map, in the map's (unspecified) iteration order. */
    method AuthorsByIds(server: Server, ids: seq<string>) returns (r: Result<seq<Author>, ApiError>)
      ensures var am := AuthorMap(server, ids);
        && (am.Err? <==> r.Err?)
        && (am.Err? ==> r.error == am.error)
        && (am.Ok? ==> Listing(r.value, am.value))
    {
      var authorMap := AuthorMap(server, ids);
      if authorMap.Err? {
        return Err(authorMap.error);
      }
      var authors := ValuesOf(authorMap.value);
      return Ok(authors);
    }

    /**
     * `addAuthors`, in place on `mangas`: look up the authors of all author ids at once, index
     * them by id, and enrich each manga. On failure the mangas are left as they were.
     */
    method AddAuthors(server: Server, mangas: array<Manga>) returns (err: Option<ApiError>)
      modifies mangas
      ensures var am := AuthorMap(server, AllAuthorIds(old(mangas[..])));
        && (am.Err? ==> err == Some(Wrapped("Could not get authors by ids", am.error)) && mangas[..] == old(mangas[..]))
        && (am.Ok? ==>
              && err.None?
              && exists authors :: Listing(authors, am.value) && mangas[..] == Enrich(old(mangas[..]), IndexById(authors)))
    {
      var ids := CollectAuthorIds(mangas);
      var authors := AuthorsByIds(server, ids);
      if authors.Err? {
        return Some(Wrapped("Could not get authors by ids", authors.error));
      }
      var authorMap := IndexAuthors(authors.value);
      for i := 0 to mangas.Length
        invariant forall k :: 0 <= k < i ==> mangas[k] == Enriched(old(mangas[k]), authorMap)
        invariant forall k :: i <= k < mangas.Length ==> mangas[k] == old(mangas[k])
      {
        EnrichAt(mangas, i, authorMap);
      }
      assert mangas[..] == Enrich(old(mangas[..]), authorMap);
      return None;
    }

    /** The first loop of `addAuthors`: all author ids of `mangas`, in order. */
    method CollectAuthorIds(mangas: array<Manga>) returns (ids: seq<string>)
      ensures ids == AllAuthorIds(mangas[..])
    {
      ids := [];
      for i := 0 to mangas.Length
        invariant ids == AllAuthorIds(mangas[..i])
      {
        assert mangas[..i + 1][..i] == mangas[..i];
        ids := ids + mangas[i].authorIds;
      }
      assert mangas[..mangas.Length] == mangas[..];
    }

    /** The second loop of `addAuthors`: `authorMap`, each author under its id. */
    method IndexAuthors(authors: seq<Author>) returns (index: map<string, Author>)
      ensures index == IndexById(authors)
    {
      index := map[];
      for i := 0 to |authors|
        invariant index == IndexById(authors[..i])
      {
        assert authors[..i + 1][..i] == authors[..i];
        index := index[authors[i].id := authors[i]];
      }
      assert authors[..|authors|] == authors;
    }

    /** One round of the third loop of `addAuthors`: manga `i` gets its authors, in place. */
    method EnrichAt(mangas: array<Manga>, i: nat, index: map<string, Author>)
      requires i < mangas.Length
      modifies mangas
      ensures mangas[..] == old(mangas[..])[i := Enriched(old(mangas[i]), index)]
    {
      AppendAuthorsAt(mangas, i, index);
      if |mangas[i].authors| == 0 {
        return;
      }
      mangas[i] := mangas[i].(author := mangas[i].authors[0]);
    }

    /** The inner loop of that round: the author of each id of manga `i` is appended to its authors. */
    method AppendAuthorsAt(mangas: array<Manga>, i: nat, index: map<string, Author>)
      requires i < mangas.Length
      modifies mangas
      ensures var m := old(mangas[i]);
        mangas[..] == old(mangas[..])[i := m.(authors := m.authors + Lookups(m.authorIds, index))]
    {
      var manga := mangas[i];
      assert manga.authorIds[..0] == [] && manga.authors + [] == manga.authors;
      for j := 0 to |manga.authorIds|
        invariant mangas[i] == manga.(authors := manga.authors + Lookups(manga.authorIds[..j], index))
        invariant forall k :: 0 <= k < mangas.Length && k != i ==> mangas[k] == old(mangas[k])
      {
        LookupsStep(manga.authorIds, j, index);
        mangas[i] := mangas[i].(authors := mangas[i].authors + [Lookup(index, manga.authorIds[j])]);
      }
      assert manga.authorIds[..|manga.authorIds|] == manga.authorIds;
    }

    /**
     * `Latest(page)`: the ids of the latest list (`page` is not used), their meta records,
     * then their authors.
     */
    method Latest(server: Server, page: int) returns (r: Result<seq<Manga>, ApiError>)
      ensures var listed := Decode(Send(Get, base + "/mrs_latest", server.latest), None, "Could not unmarshal latest mangas");
        && (listed.Err? ==> r == Err(listed.error))
        && (listed.Ok? ==>
              var ids := Ids(listed.value, MangaId);
              var mm := MangaMap(server, ids);
              && (mm.Err? ==> r == Err(Wrapped("Could not get latest mangas by ids", mm.error)))
              && (mm.Ok? ==> Enriches(server, Found(ids, mm.value), r)))
    {
      var listed := Decode(Send(Get, base + "/mrs_latest", server.latest), None, "Could not unmarshal latest mangas");
      if listed.Err? {
        return Err(listed.error);
      }
      var latest := listed.value;
      var ids := new string[|latest|];
      for i := 0 to |latest|
        invariant forall k :: 0 <= k < i ==> ids[k] == latest[k].id
      {
        ids[i] := latest[i].id;
      }
      assert ids[..] == Ids(latest, MangaId);
      var found := MangasByIds(server, ids[..]);
      if found.Err? {
        return Err(Wrapped("Could not get latest mangas by ids", found.error));
      }
      var mangas := new Manga[|found.value|](i requires 0 <= i < |found.value| => found.value[i]);
      assert mangas[..] == found.value;
      var err := AddAuthors(server, mangas);
      if err.Some? {
        return Err(err.value);
      }
      return Ok(mangas[..]);
    }

    /** `Manga(id)`: the single manga, with `author` set to its first author (a panic when it has none). */
    function Manga(server: Server, id: string): (r: Result<MangaSingle, ApiError>)
      reads this
      ensures var sent := Send(Post, base + "/info?oid=" + id, server.info(id));
        && (sent.Err? ==> r == Err(sent.error))
        && (sent == Ok(None) ==> r == Err(Wrapped("Could not unmarshal manga", JsonError)))
        && (sent.Ok? && sent.value.Some? ==>
              var single := sent.value.value;
              && (single.manga.authors == [] ==> r == Err(IndexOutOfRange))
              && (single.manga.authors != [] ==>
                    && r.Ok?
                    && r.value.manga.author == single.manga.authors[0]
                    && r.value.(manga := r.value.manga.(author := single.manga.author)) == single))
    {
      match Decode(Send(Post, base + "/info?oid=" + id, server.info(id)), None, "Could not unmarshal manga")
      case Err(e) => Err(e)
      case Ok(single) =>
        if |single.manga.authors| == 0 then Err(IndexOutOfRange)
        else Ok(single.(manga := single.manga.(author := single.manga.authors[0])))
    }

    /** `Mangas(ids)`: the meta records of `ids`. */
    method Mangas(server: Server, ids: seq<string>) returns (r: Result<seq<Manga>, ApiError>)
      ensures var mm := MangaMap(server, ids);
        && (mm.Err? ==> r == Err(Wrapped("Could not get authors mangas", mm.error)))
        && (mm.Ok? ==> r == Ok(Found(ids, mm.value)))
    {
      var found := MangasByIds(server, ids);
      if found.Err? {
        return Err(Wrapped("Could not get authors mangas", found.error));
      }
      return found;
    }

    /** The pages of chapter `cid`, as `Chapter` requests and decodes them. */
    function ChapterPages(server: Server, cid: string): Result<seq<string>, ApiError>
      reads this
    {
      Decode(Send(Post, base + "/pages?oid=" + cid, server.pages(cid)),
        Some("Could not get pages"), "Could not unmarhal pages")
    }

    /**
     * `Chapter(id, cid)`: the first chapter of manga `id` whose id is `cid`, with the fetched
     * pages. A panic of `Manga` is passed on as it is.
     */
    method Chapter(server: Server, id: string, cid: string) returns (r: Result<Records.Chapter, ApiError>)
      ensures var single := Manga(server, id);
        && (single == Err(IndexOutOfRange) ==> r == Err(IndexOutOfRange))
        && (single.Err? && single.error != IndexOutOfRange ==> r == Err(Wrapped("Could not get manga", single.error)))
        && (single.Ok? ==>
              var pages := ChapterPages(server, cid);
              && (pages.Err? ==> r == Err(pages.error))
              && (pages.Ok? ==>
                    var at := FindChapter(single.value.chapters, cid);
                    && (at.None? ==> r == Err(Message("Chapter not found")))
                    && (at.Some? ==> r == Ok(single.value.chapters[at.value].(pages := pages.value)))))
    {
      var single := Manga(server, id);
      if single.Err? {
        if single.error == IndexOutOfRange {
          return Err(IndexOutOfRange);
        }
        return Err(Wrapped("Could not get manga", single.error));
      }
      var pages := ChapterPages(server, cid);
      if pages.Err? {
        return Err(pages.error);
      }
      var chapters := single.value.chapters;
      var i := 0;
      while i < |chapters|
        invariant i <= |chapters|
        invariant forall j :: 0 <= j < i ==> chapters[j].id != cid
      {
        if chapters[i].id == cid {
          return Ok(chapters[i].(pages := pages.value));
        }
        i := i + 1;
      }
      return Err(Message("Chapter not found"));
    }

    /** The ids of the series related to author `id`, as `Author` requests and decodes them. */
    function RelatedSeries(server: Server, id: string): Result<seq<SeriesRef>, ApiError>
      reads this
    {
      Decode(Send(Get, base + "/mrs_serie_related_author", server.related(id)),
        Some("Could not get authors mangas"), "Could not unmarshal authors meta data")
    }

    /**
     * `Author(id)`: the first author the lookup of `id` lists (not found when it lists none),
     * and the meta records of the author's related series, each with that author as `author`.
     */
    method Author(server: Server, id: string) returns (r: Result<(Records.Author, seq<Manga>), ApiError>)
      ensures var am := AuthorMap(server, [id]);
        && (am.Err? ==> r == Err(Wrapped("Could not get authors meta data", am.error)))
        && (am.Ok? && am.value == map[] ==> r == Err(Message("Author with id " + id + " not found")))
        && (am.Ok? && am.value != map[] ==>
              var related := RelatedSeries(server, id);
              && (related.Err? ==> r == Err(related.error))
              && (related.Ok? ==>
                    var ids := Ids(related.value, RefId);
                    var mm := MangaMap(server, ids);
                    && (mm.Err? ==> r == Err(Wrapped("Could not get authors mangas", mm.error)))
                    && (mm.Ok? ==>
                          && r.Ok?
                          && r.value.0 in Bag(am.value)
                          && r.value.1 == WithAuthor(Found(ids, mm.value), r.value.0))))
    {
      var authors := AuthorsByIds(server, [id]);
      if authors.Err? {
        return Err(Wrapped("Could not get authors meta data", authors.error));
      }
      ghost var am := AuthorMap(server, [id]).value;
      BagValues(am, ZeroAuthor);
      if |authors.value| == 0 {
        assert |Bag(am)| == 0;
        return Err(Message("Author with id " + id + " not found"));
      }
      var related := RelatedSeries(server, id);
      if related.Err? {
        return Err(related.error);
      }
      var mangaIds := CollectRefIds(related.value);
      var found := MangasByIds(server, mangaIds);
      if found.Err? {
        return Err(Wrapped("Could not get authors mangas", found.error));
      }
      var first := authors.value[0];
      var mangas := AssignAuthor(found.value, first);
      assert first in multiset(authors.value);
      return Ok((first, mangas));
    }

    /** The id loop of `Author`: the ids of the related-series records, in order. */
    method CollectRefIds(refs: seq<SeriesRef>) returns (ids: seq<string>)
      ensures ids == Ids(refs, RefId)
    {
      ids := [];
      for i := 0 to |refs|
        invariant ids == Ids(refs[..i], RefId)
      {
        assert refs[..i + 1][..i] == refs[..i];
        ids := ids + [refs[i].id];
      }
      assert refs[..|refs|] == refs;
    }

    /** The last loop of `Author`: each manga gets `a` as its author, in place on the slice. */
    method AssignAuthor(found: seq<Manga>, a: Records.Author) returns (mangas: seq<Manga>)
      ensures mangas == WithAuthor(found, a)
    {
      mangas := found;
      for i := 0 to |mangas|
        invariant |mangas| == |found|
        invariant forall k :: 0 <= k < i ==> mangas[k] == found[k].(author := a)
        invariant forall k :: i <= k < |mangas| ==> mangas[k] == found[k]
      {
        mangas := mangas[i := mangas[i].(author := a)];
      }
    }

    /**
     * `Search(query)`: the ids the search answers with. A failed request is not reported as
     * such: its error is dropped, and the empty data then fails to unmarshal.
     */
    function Search(server: Server, query: string): (r: Result<seq<string>, ApiError>)
      ensures var reply := server.search(query);
        r.Ok? <==> reply.Answered? && reply.code == 0 && reply.data.Some?
      ensures r.Ok? ==> r.value == server.search(query).data.value
      ensures r.Err? ==> r.error == Wrapped("Could not unmarshal searched mangas", JsonError)
    {
      match Send(Post, APIURL + "/mrs_search", server.search(query))
      case Ok(Some(ids)) => Ok(ids)
      case _ => Err(Wrapped("Could not unmarshal searched mangas", JsonError))
    }
  }
}
