/** Presence from end to end: from the server's live registrations to the flags on a client's contacts. */
module Presence {
  import opened Bitmap
  import opened Listeners
  import opened Phonebooks
  import opened RegistryIndex
  import opened Registrars
  import opened Registries
  import opened Text
  import Xdp

  /** The bytes of the indexes that cover the dialing range. */
  function Shown(ix: Index, r: Range): seq<bv8>
    requires r.Valid() && |ix.online| == BYTES
  {
    ix.online[..(r.last - r.first) / 8 + 1]
  }

  /** Some live registration has the number. */
  predicate LiveOn(live: set<Registry>, n: int) { exists o <- live :: NumberOf(o) == n }

  /**
   * A successful registration of a client device. The client walks the server's bitmap only if it
   * differs from the one it read before. So a known contact from the first number up to but not
   * including the last shows afterwards whether the server has a live registration with its number,
   * exactly when the bitmap is a new one or the contact showed it before. No other contact changes.
   */
  method Register(server: Registrar, info: Xdp.Info, device: string, client: Listener, book: Phonebook)
    returns (bits: seq<bv8>, signals: seq<Xdp.Signal>)
    requires server.Valid() && book.Valid()
    requires Xdp.Printable(info) && device != "NONE"
    requires info.first == server.range.first && info.last == server.range.last
    modifies client, book.Items()
    ensures bits == Shown(server.View(), server.range) && client.priorOnline == bits && bits != []
    ensures forall n | server.range.first <= n < server.range.last && book.local[n] != null ::
      (book.local[n].online <==> LiveOn(server.live, n))
      <==> bits != old(client.priorOnline) || (old(book.local[n].online) <==> LiveOn(server.live, n))
    ensures forall n | 0 <= n < EXTENSIONS && !(server.range.first <= n < server.range.last) && book.local[n] != null ::
      book.local[n].online == old(book.local[n].online)
  {
    assert server.range.Valid();
    hide Registrar.Valid, Bit, LiveOn;
    var bitmap;
    bits, signals, bitmap := Tell(server, info, device, client);
    if bitmap.Some? && |bitmap.value| > 0 {
      book.ChangeStatus(bitmap.value, client.serverFirst, client.serverLast);
    }
  }

  /** The server's text, printed and parsed: the client hands its bitmap on only if it is a new one. */
  method Tell(server: Registrar, info: Xdp.Info, device: string, client: Listener)
    returns (bits: seq<bv8>, signals: seq<Xdp.Signal>, bitmap: Option<seq<bv8>>)
    requires server.Valid() && Xdp.Printable(info) && device != "NONE"
    requires info.first == server.range.first && info.last == server.range.last
    modifies client
    ensures bits == Shown(server.View(), server.range) && bits != [] && Covers(bits, server.range.first, server.range.last)
    ensures forall n | server.range.first <= n < server.range.last :: Bit(bits, n - server.range.first) <==> LiveOn(server.live, n)
    ensures client.priorOnline == bits && client.serverFirst == server.range.first && client.serverLast == server.range.last
    ensures bitmap == if bits != old(client.priorOnline) then Some(bits) else None
  {
    bits := Read(server);
    hide Bit, LiveOn, Shown, Covers, Xdp.Composed, Xdp.Parse, Consistent, Registrar.Valid;
    var told := info.(bitmap := bits);
    var xdp := Xdp.Print(device, told);
    Xdp.RoundTrip(client.Known(), told, device);
    signals, bitmap := client.ParseXdp(xdp);
  }

  method Read(server: Registrar) returns (bits: seq<bv8>)
    requires server.Valid()
    ensures bits == Shown(server.View(), server.range) && bits != [] && Covers(bits, server.range.first, server.range.last)
    ensures forall n | server.range.first <= n < server.range.last :: Bit(bits, n - server.range.first) <==> LiveOn(server.live, n)
  {
    CoversRange(server.View(), server.live, server.range);
    hide Bit, Consistent, Registrar.Valid;
    bits := server.Bitmask();
    forall n | server.range.first <= n < server.range.last
      ensures Bit(bits, n - server.range.first) <==> LiveOn(server.live, n)
    {
      assert server.range.Has(n);
    }
  }

  /** A client that reads its first bitmap, or a new one, shows every known contact as the server has it. */
  method RegisterWithNews(server: Registrar, info: Xdp.Info, device: string, client: Listener, book: Phonebook)
    requires server.Valid() && book.Valid()
    requires Xdp.Printable(info) && device != "NONE"
    requires info.first == server.range.first && info.last == server.range.last
    requires client.priorOnline != Shown(server.View(), server.range)
    modifies client, book.Items()
    ensures forall n | server.range.first <= n < server.range.last && book.local[n] != null ::
      book.local[n].online <==> LiveOn(server.live, n)
  {
    hide Registrar.Valid, Bit, LiveOn, Shown, Covers;
    var _, _ := Register(server, info, device, client, book);
  }

  /** A registration whose bitmap is the one read before changes no contact, right or wrong. */
  method RegisterWithoutNews(server: Registrar, info: Xdp.Info, device: string, client: Listener, book: Phonebook)
    requires server.Valid() && book.Valid()
    requires Xdp.Printable(info) && device != "NONE"
    requires info.first == server.range.first && info.last == server.range.last
    requires client.priorOnline == Shown(server.View(), server.range)
    modifies client, book.Items()
    ensures client.priorOnline == old(client.priorOnline)
    ensures forall n | 0 <= n < EXTENSIONS && book.local[n] != null :: book.local[n].online == old(book.local[n].online)
  {
    hide Registrar.Valid, Bit, LiveOn, Shown, Covers;
    var _, _ := Register(server, info, device, client, book);
  }

  /**
   * So a contact shown offline though its number is live stays that way through every registration
   * until the bitmap changes.
   */
  method WrongContactStays(
    server: Registrar, info: Xdp.Info, device: string, client: Listener, book: Phonebook, n: int)
    requires server.Valid() && book.Valid()
    requires Xdp.Printable(info) && device != "NONE"
    requires info.first == server.range.first && info.last == server.range.last
    requires client.priorOnline == Shown(server.View(), server.range)
    requires server.range.first <= n < server.range.last && LiveOn(server.live, n)
    requires 0 <= n < EXTENSIONS && book.local[n] != null && !book.local[n].online
    modifies client, book.Items()
    ensures client.priorOnline == Shown(server.View(), server.range)
    ensures book.local[n] != null && !book.local[n].online && LiveOn(server.live, n)
  {
    hide Registrar.Valid, Bit, LiveOn, Shown, Covers;
    RegisterWithoutNews(server, info, device, client, book);
  }

  /**
   * And such a contact comes about whenever one enters the roster after the bitmap was walked, as on
   * a brand-new client, whose roster comes after its first bitmap.
   */
  method NewContactIsWrong(server: Registrar, client: Listener, book: Phonebook, n: int)
    requires server.Valid() && book.Valid() && client.priorOnline == Shown(server.View(), server.range)
    requires server.range.first <= n < server.range.last && LiveOn(server.live, n)
    modifies book.local
    ensures server.Valid() && book.Valid() && client.priorOnline == Shown(server.View(), server.range)
    ensures 0 <= n < EXTENSIONS && book.local[n] != null && !book.local[n].online && LiveOn(server.live, n)
  {
    hide Consistent, LiveOn, Shown;
    book.AddContact(n);
  }

  /** Losing the connection and coming back with a new listener repairs it. */
  method ReconnectRepairs(server: Registrar, info: Xdp.Info, device: string, last: Listener, book: Phonebook)
    returns (client: Listener)
    requires server.Valid() && book.Valid()
    requires Xdp.Printable(info) && device != "NONE"
    requires info.first == server.range.first && info.last == server.range.last
    modifies book.Items()
    ensures forall n | server.range.first <= n < server.range.last && book.local[n] != null ::
      book.local[n].online <==> LiveOn(server.live, n)
  {
    hide Registrar.Valid, Bit;
    book.Disconnect();
    client := new Listener(last.rosterSequence);
    var _, _ := Register(server, info, device, client, book);
  }

  lemma CoversRange(ix: Index, live: set<Registry>, r: Range)
    requires Consistent(ix, live, r)
    ensures r.Valid() && |ix.online| == BYTES && Covers(Shown(ix, r), r.first, r.last + 1)
  {
    hide Holds, Counted;
  }

  /**
   * Whatever it knew before, a client that reads the server's text holds a bitmap that covers the
   * range and shows every number in it as the server's live registrations have it, the last included.
   */
  lemma TextShowsLive(ix: Index, live: set<Registry>, r: Range, c: Xdp.Client, info: Xdp.Info, device: string, n: int)
    requires Consistent(ix, live, r) && Xdp.Printable(info) && device != "NONE"
    requires r.Has(n) && info.bitmap == Shown(ix, r)
    ensures var online := Xdp.Parse(c, Xdp.Composed(device, info)).client.online;
      && Covers(online, r.first, r.last + 1)
      && (Bit(online, n - r.first) <==> exists o <- live :: NumberOf(o) == n)
  {
    hide Bit, Xdp.Composed, Xdp.Parse, Consistent, Xdp.Printable;
    CoversRange(ix, live, r);
    Xdp.RoundTrip(c, info, device);
    BitMeansLive(ix, live, r, n);
    BitOfPrefix(ix.online, (r.last - r.first) / 8 + 1, n - r.first);
  }
}
