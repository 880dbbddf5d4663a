/** The client's end of a registration: it keeps what the server said and reports what changed. */
module Listeners {
  import opened Text
  import opened Xdp

  class Listener {
    var privs: string
    var display: string
    var serverFirst: int
    var serverLast: int
    var priorBanner: string
    var rosterSequence: int
    var serverContact: string
    var priorOnline: seq<bv8>

    /**
     * The roster number outlives its listener: a new one starts from what the last one of the process
     * read, and the first from ROSTER_UNREAD.
     */
    constructor (rosterSequence: int)
      ensures Known() == Client("", "", -1, -1, "", rosterSequence, "unknown", [])
    {
      privs, display, serverFirst, serverLast := "", "", -1, -1;
      priorBanner, serverContact, priorOnline := "", "unknown", [];
      this.rosterSequence := rosterSequence;
    }

    function Known(): Client
      reads this
    {
      Client(privs, display, serverFirst, serverLast, priorBanner, rosterSequence, serverContact, priorOnline)
    }

    method ReadLine(line: string) returns (signals: seq<Signal>, bitmap: Option<seq<bv8>>)
      modifies this
      ensures forall before: seq<Signal>, found: Option<seq<bv8>> ::
        ParseLine(Parsed(old(Known()), before, found), line)
        == Parsed(Known(), before + signals, if bitmap.Some? then bitmap else found)
    {
      hide Decoded, ToInt, ToUInt;
      signals, bitmap := [], None;
      var value := Rest(line);
      if Tag(line) == "b=" {
        if value != priorBanner {
          signals := [ChangeBanner(value)];
          priorBanner := value;
        }
      } else if Tag(line) == "d=" {
        display := value;
      } else if Tag(line) == "p=" {
        privs := value;
      } else if Tag(line) == "f=" {
        serverFirst := ToInt(value);
      } else if Tag(line) == "r=" {
        var rosterPrior := rosterSequence;
        rosterSequence := ToUInt(value);
        if rosterSequence != rosterPrior {
          signals := [UpdateRoster];
        }
      } else if Tag(line) == "c=" {
        var priorContact := serverContact;
        serverContact := value;
        if serverContact != priorContact {
          signals := [ContactAddress(value)];
        }
      } else if Tag(line) == "l=" {
        serverLast := ToInt(value);
      } else if Tag(line) == "a=" {
        var online := Decoded(value);
        if online != priorOnline {
          bitmap := Some(online);
          priorOnline := online;
        }
      }
    }

    method ParseXdp(xdp: string) returns (signals: seq<Signal>, bitmap: Option<seq<bv8>>)
      modifies this
      ensures Parsed(Known(), signals, bitmap) == Parse(old(Known()), xdp)
    {
      hide ParseLine;
      signals, bitmap := [], None;
      var lines := Split(xdp);
      privs := "none";
      var i := 0;
      while i < |lines|
        invariant i <= |lines|
        invariant ParseLines(Parsed(Known(), signals, bitmap), lines[i..]) == Parse(old(Known()), xdp)
      {
        ParseAt(Parsed(Known(), signals, bitmap), lines, i);
        var emitted, found := ReadLine(lines[i]);
        signals := signals + emitted;
        bitmap := if found.Some? then found else bitmap;
        i := i + 1;
      }
    }
  }
}
