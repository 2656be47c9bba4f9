/** Reference counted media objects (media.c). */
module MediaObjects {
  import opened Words
  import Uris

  class Media {
    const uri: Uris.Uri
    var parsed: bool
    var refCount: int
    /** How often the object has been freed. */
    ghost var frees: nat

    /** The object as it must be when `n` references to it are held. */
    ghost predicate Accounts(n: nat)
      reads `refCount, `frees
    {
      refCount == n && frees == (if n == 0 then 1 else 0)
    }

    constructor (uri: Uris.Uri)
      ensures this.uri == uri && parsed == Uris.IsHttp(uri)
      ensures refCount == 1 && frees == 0
    {
      this.uri := uri;
      parsed := Uris.IsHttp(uri);
      refCount := 1;
      frees := 0;
    }
  }

  /** The media objects of the process with the references held to each of them.  The program has no
      such object: it is the account the reference counts are proved against. */
  class Arena {
    ghost var all: set<Media>
    ghost var held: multiset<Media>

    /** Every count is the number of references held, and an object has been freed, once, exactly if
        no reference to it is left. */
    ghost predicate Valid()
      reads this, all`refCount, all`frees
    {
      && (forall m :: m in held ==> m in all)
      && (forall m :: m in all ==> m.Accounts(held[m]))
    }

    ghost constructor ()
      ensures Valid() && all == {} && held == multiset{}
    {
      all := {};
      held := multiset{};
    }
  }

  /** `media_new`: the caller owns the one reference. */
  method New(arg: string, resolved: Option<string>, alloc: bool, ghost arena: Arena) returns (m: Media?)
    requires arena.Valid() && Uris.Resolves(resolved)
    modifies arena
    ensures arena.Valid() && old(arena.all) <= arena.all
    ensures m == null ==>
      Uris.New(arg, resolved, alloc) == None && arena.all == old(arena.all) && arena.held == old(arena.held)
    ensures m != null ==>
      && fresh(m) && arena.all == old(arena.all) + {m} && arena.held == old(arena.held) + multiset{m}
      && Uris.New(arg, resolved, alloc) == Some(m.uri) && m.parsed == Uris.IsHttp(m.uri)
  {
    var uri := Uris.New(arg, resolved, alloc);
    Uris.NewIsOk(arg, resolved, alloc);
    if uri.None? {
      return null;
    }
    m := new Media(uri.value);
    assert m !in arena.all;
    assert arena.held[m] == 0;
    arena.all := arena.all + {m};
    arena.held := arena.held + multiset{m};
  }

  /** `media_set_parsed`. */
  method SetParsed(m: Media)
    modifies m`parsed
    ensures m.parsed
  {
    m.parsed := true;
  }

  /** `media_ref`.  Whoever calls it must see a live object. */
  method Ref(m: Media, ghost arena: Arena)
    requires arena.Valid() && m in arena.held
    modifies m`refCount, arena`held
    ensures arena.Valid() && arena.held == old(arena.held) + multiset{m}
  {
    m.refCount := m.refCount + 1;
    arena.held := arena.held + multiset{m};
  }

  /** `media_unref`: gives up one reference; the object is freed with the last one. */
  method Unref(m: Media, ghost arena: Arena)
    requires arena.Valid() && m in arena.held
    modifies m`refCount, m`frees, arena`held
    ensures arena.Valid() && arena.held == old(arena.held) - multiset{m}
  {
    if m.refCount == 1 {
      m.frees := m.frees + 1;
    }
    m.refCount := m.refCount - 1;
    arena.held := arena.held - multiset{m};
  }
}
