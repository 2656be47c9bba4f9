/** The pending-tag map of tag-reader.c: which media wait for their tags, and who owns them. */
module TagReading {
  import opened MediaObjects

  lemma InsertThenTake<T>(p: map<string, T>, uri: string, m: T)
    requires uri !in p
    ensures p[uri := m] - {uri} == p
  {
  }

  /** A reference taken on top of an account, given back or added to one side of it. */
  lemma Passing<T>(others: multiset<T>, owned: multiset<T>, m: T)
    ensures others + owned + multiset{m} - multiset{m} == others + owned
    ensures others + owned + multiset{m} == others + (owned + multiset{m})
  {
  }

  /** Each media is filed under its URI, and the map owns one reference to each. */
  ghost predicate Files(pending: map<string, Media>, owned: multiset<Media>) {
    && (forall uri :: uri in pending ==> pending[uri].uri == uri && pending[uri] in owned)
    && (forall m :: m in owned ==> owned[m] == 1 && m.uri in pending && pending[m.uri] == m)
  }

  lemma FilesLess(pending: map<string, Media>, owned: multiset<Media>, uri: string)
    requires Files(pending, owned) && uri in pending
    ensures Files(pending - {uri}, owned - multiset{pending[uri]})
  {
    var less, left := pending - {uri}, owned - multiset{pending[uri]};
    assert left[pending[uri]] == 0;
    forall key | key in less
      ensures less[key].uri == key && less[key] in left
    {
      assert key in pending && less[key] == pending[key] && left[pending[key]] == owned[pending[key]];
    }
    forall m | m in left
      ensures left[m] == 1 && m.uri in less && less[m.uri] == m
    {
      assert m in owned && left[m] == owned[m];
    }
  }

  class TagReader {
    /** Entries are filed under the URI of the media they own. */
    var pending: map<string, Media>

    /** The references the map owns: one for each media that is filed. */
    ghost var owned: multiset<Media>

    ghost predicate Valid()
      reads this
    {
      Files(pending, owned)
    }

    constructor ()
      ensures Valid() && pending == map[] && owned == multiset{}
    {
      pending := map[];
      owned := multiset{};
    }

    /** `map_insert`, for a URI that is not filed yet. */
    method Insert(m: Media)
      requires Valid() && m.uri !in pending
      modifies this
      ensures Valid() && pending == old(pending)[m.uri := m] && owned == old(owned) + multiset{m}
    {
      pending := pending[m.uri := m];
      owned := owned + multiset{m};
    }

    /** `map_take`: the caller takes over the reference of the entry. */
    method Take(uri: string) returns (m: Media)
      requires Valid() && uri in pending
      modifies this
      ensures Valid() && m == old(pending)[uri] && pending == old(pending) - {uri}
      ensures m in old(owned) && owned == old(owned) - multiset{m}
    {
      FilesLess(pending, owned, uri);
      m := pending[uri];
      pending := pending - {uri};
      owned := owned - multiset{m};
    }

    /** Every reference in the arena is either one of `others` or owned by this map. */
    ghost predicate Balanced(arena: Arena, others: multiset<Media>)
      reads this, arena, arena.all`refCount, arena.all`frees
    {
      Valid() && arena.Valid() && arena.held == others + owned
    }

    /** Takes an entry and gives its reference up. */
    method Release(m: Media, ghost arena: Arena, ghost others: multiset<Media>)
      requires Balanced(arena, others) && m.uri in pending && pending[m.uri] == m
      modifies this, m`refCount, m`frees, arena`held
      ensures Balanced(arena, others)
      ensures pending == old(pending) - {m.uri}
    {
      var taken := Take(m.uri);
      Unref(taken, arena);
    }

    /** `tag_reader_read_async`.  `insert` and `discover` are the outcomes of the map insertion (which
        refuses a URI that is already filed) and of starting the discovery. */
    method ReadAsync(m: Media, insert: bool, discover: bool, ghost arena: Arena, ghost others: multiset<Media>)
      requires Balanced(arena, others) && m in others
      modifies this, m`refCount, m`frees, arena`held
      ensures Balanced(arena, others)
      ensures pending == if !m.parsed && insert && discover && m.uri !in old(pending)
                         then old(pending)[m.uri := m] else old(pending)
    {
      if m.parsed {
        return;
      }
      var filed := File(m, insert, arena, others);
      if filed {
        InsertThenTake(old(pending), m.uri, m);
        Discover(m, discover, arena, others);
      }
    }

    /** The first half of it: the map takes a reference of its own, or none. */
    method File(m: Media, insert: bool, ghost arena: Arena, ghost others: multiset<Media>) returns (filed: bool)
      requires Balanced(arena, others) && m in others
      modifies this, m`refCount, m`frees, arena`held
      ensures Balanced(arena, others)
      ensures filed == (insert && m.uri !in old(pending))
      ensures pending == if filed then old(pending)[m.uri := m] else old(pending)
    {
      hide Arena.Valid;
      Passing(others, owned, m);
      Ref(m, arena);
      if !insert || m.uri in pending {
        Unref(m, arena);
        return false;
      }
      Insert(m);
      return true;
    }

    /** The second half of it: an entry whose discovery does not start is withdrawn. */
    method Discover(m: Media, discover: bool, ghost arena: Arena, ghost others: multiset<Media>)
      requires Balanced(arena, others) && m.uri in pending && pending[m.uri] == m
      modifies this, m`refCount, m`frees, arena`held
      ensures Balanced(arena, others)
      ensures pending == if discover then old(pending) else old(pending) - {m.uri}
    {
      if !discover {
        Release(m, arena, others);
      }
    }

    /** `on_discovered`: the entry for `uri`, if any, gets its tags and is taken. */
    method OnDiscovered(uri: string, ok: bool, ghost arena: Arena, ghost others: multiset<Media>)
      requires Balanced(arena, others)
      modifies this, arena.all, arena`held
      ensures Balanced(arena, others)
      ensures pending == old(pending) - {uri}
      ensures forall m :: m in arena.all ==>
                m.parsed == (old(m.parsed) || (ok && uri in old(pending) && m == old(pending)[uri]))
    {
      if uri !in pending {
        return;
      }
      if !pending[uri].parsed && ok {
        SetParsed(pending[uri]);
      }
      Release(pending[uri], arena, others);
    }

    /** `tag_reader_destroy`: the map gives up the reference of every entry. */
    method Destroy(ghost arena: Arena, ghost others: multiset<Media>)
      requires Balanced(arena, others)
      modifies this, arena.all`refCount, arena.all`frees, arena`held
      ensures Balanced(arena, others) && pending == map[]
      ensures arena.held == others
    {
      while pending != map[]
        invariant Balanced(arena, others)
        decreases pending
      {
        var uri :| uri in pending;
        assert pending[uri] in arena.held;
        Release(pending[uri], arena, others);
      }
    }
  }
}
