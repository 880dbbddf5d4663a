/** The text a server sends with a registration, and the client's reading of it. */
module Xdp {
  import opened Text
  import Base64

  // ---- lines ----

  function Joined(lines: seq<string>): string {
    if lines == [] then "" else lines[0] + "\n" + Joined(lines[1..])
  }

  /** `split('\n')`: always one piece more than there are newlines. */
  function Split(s: string): (r: seq<string>)
    ensures r != []
  {
    if s == "" then [""]
    else if s[0] == '\n' then [""] + Split(s[1..])
    else
      var rest := Split(s[1..]);
      [[s[0]] + rest[0]] + rest[1..]
  }

  lemma {:induction false} SplitLine(line: string, s: string)
    requires '\n' !in line
    ensures Split(line + "\n" + s) == [line] + Split(s)
  {
    var text := line + "\n" + s;
    if line == "" {
      assert text[1..] == s;
    } else {
      assert text[0] == line[0] && text[1..] == line[1..] + "\n" + s;
      SplitLine(line[1..], s);
      assert ([line[1..]] + Split(s))[1..] == Split(s) && line == [line[0]] + line[1..];
    }
  }

  lemma {:induction false} SplitJoined(lines: seq<string>)
    requires forall i :: 0 <= i < |lines| ==> '\n' !in lines[i]
    ensures Split(Joined(lines)) == lines + [""]
  {
    if lines != [] {
      SplitJoined(lines[1..]);
      SplitLine(lines[0], Joined(lines[1..]));
    }
  }

  // ---- the server's text ----

  datatype Info = Info(
    banner: string, privs: string, display: string, first: int, last: int,
    roster: nat, sequence: int, contact: string, bitmap: seq<bv8>)

  /** `checkRoster`: the roster's change counter, of which a client only sees the remainder. */
  function CheckRoster(changes: nat): nat { changes % 8192 }

  function Lines(i: Info): seq<string> {
    ["v=0", "b=" + i.banner, "p=" + i.privs, "d=" + i.display,
     "f=" + IntToString(i.first), "l=" + IntToString(i.last), "r=" + IntToString(CheckRoster(i.roster)),
     "s=" + IntToString(i.sequence), "c=" + i.contact, "a=" + Base64.Encode(Base64.Bytes(i.bitmap))]
  }

  /** Only a client's own device is told anything: phones register under the label NONE. */
  function Composed(device: string, i: Info): string {
    if device == "NONE" then "" else Joined(Lines(i))
  }

  /** The manager writes line after line. */
  method Print(device: string, i: Info) returns (xdp: string)
    ensures xdp == Composed(device, i)
    ensures device == "NONE" ==> xdp == ""
    ensures device != "NONE" ==>
      xdp == "v=0" + "\n" + ("b=" + i.banner) + "\n" + ("p=" + i.privs) + "\n" + ("d=" + i.display) + "\n"
             + ("f=" + IntToString(i.first)) + "\n" + ("l=" + IntToString(i.last)) + "\n"
             + ("r=" + IntToString(i.roster % 8192)) + "\n" + ("s=" + IntToString(i.sequence)) + "\n"
             + ("c=" + i.contact) + "\n" + ("a=" + Base64.Encode(Base64.Bytes(i.bitmap))) + "\n"
  {
    hide IntToString, Base64.Encode, Base64.Bytes;
    xdp := "";
    if device != "NONE" {
      var v, b, p, d := "v=0", "b=" + i.banner, "p=" + i.privs, "d=" + i.display;
      var f, l, r := "f=" + IntToString(i.first), "l=" + IntToString(i.last), "r=" + IntToString(CheckRoster(i.roster));
      var s, c := "s=" + IntToString(i.sequence), "c=" + i.contact;
      var a := "a=" + Base64.Encode(Base64.Bytes(i.bitmap));
      xdp := v + "\n";
      xdp := xdp + b + "\n";
      xdp := xdp + p + "\n";
      xdp := xdp + d + "\n";
      xdp := xdp + f + "\n";
      xdp := xdp + l + "\n";
      xdp := xdp + r + "\n";
      xdp := xdp + s + "\n";
      xdp := xdp + c + "\n";
      xdp := xdp + a + "\n";
      JoinedTen(v, b, p, d, f, l, r, s, c, a);
    }
  }

  lemma {:induction false} JoinedSnoc(lines: seq<string>, line: string)
    ensures Joined(lines + [line]) == Joined(lines) + line + "\n"
  {
    if lines != [] {
      JoinedSnoc(lines[1..], line);
      assert (lines + [line])[1..] == lines[1..] + [line];
    } else {
      assert Joined(([line])[1..]) == "";
    }
  }

  lemma JoinedTen(
    v: string, b: string, p: string, d: string, f: string, l: string, r: string, s: string, c: string, a: string)
    ensures Joined([v, b, p, d, f, l, r, s, c, a])
            == v + "\n" + b + "\n" + p + "\n" + d + "\n" + f + "\n" + l + "\n" + r + "\n" + s + "\n" + c + "\n" + a + "\n"
  {
    hide Joined;
    var l5 := [v, b, p, d, f];
    assert [v] == [] + [v] && [v, b] == [v] + [b] && [v, b, p] == [v, b] + [p] && [v, b, p, d] == [v, b, p] + [d];
    assert l5 == [v, b, p, d] + [f] && [v, b, p, d, f, l, r, s, c, a] == l5 + [l] + [r] + [s] + [c] + [a];
    JoinedEmpty();
    JoinedSnoc([], v);
    assert "" + v == v;
    JoinedSnoc([v], b);
    JoinedSnoc([v, b], p);
    JoinedSnoc([v, b, p], d);
    JoinedSnoc([v, b, p, d], f);
    JoinedSnoc(l5, l);
    JoinedSnoc(l5 + [l], r);
    JoinedSnoc(l5 + [l] + [r], s);
    JoinedSnoc(l5 + [l] + [r] + [s], c);
    JoinedSnoc(l5 + [l] + [r] + [s] + [c], a);
  }

  lemma JoinedEmpty()
    ensures Joined([]) == ""
  {
  }

  // ---- the client's reading ----

  /** The roster number of a process that has read none. */
  const ROSTER_UNREAD := 0xffff

  /** What the client keeps between registrations. */
  datatype Client = Client(
    privs: string, display: string, first: int, last: int,
    banner: string, roster: int, contact: string, online: seq<bv8>)

  datatype Signal = ChangeBanner(banner: string) | UpdateRoster | ContactAddress(contact: string)

  /** The client's state, what it has emitted and the bitmap it hands on, if any. */
  datatype Parsed = Parsed(client: Client, signals: seq<Signal>, bitmap: Option<seq<bv8>>)

  function Tag(line: string): string { if |line| < 2 then line else line[..2] }

  function Rest(line: string): string { if |line| < 2 then "" else line[2..] }

  function Decoded(value: string): seq<bv8> { Base64.Bits(Base64.Decode(value, 0, 0)) }

  function ParseLine(p: Parsed, line: string): Parsed {
    var c, value := p.client, Rest(line);
    match Tag(line)
    case "b=" => if value == c.banner then p
                 else p.(client := c.(banner := value), signals := p.signals + [ChangeBanner(value)])
    case "d=" => p.(client := c.(display := value))
    case "p=" => p.(client := c.(privs := value))
    case "f=" => p.(client := c.(first := ToInt(value)))
    case "l=" => p.(client := c.(last := ToInt(value)))
    case "r=" => p.(client := c.(roster := ToUInt(value)),
                    signals := p.signals + if ToUInt(value) != c.roster then [UpdateRoster] else [])
    case "c=" => p.(client := c.(contact := value),
                    signals := p.signals + if value != c.contact then [ContactAddress(value)] else [])
    case "a=" => if Decoded(value) == c.online then p
                 else p.(client := c.(online := Decoded(value)), bitmap := Some(Decoded(value)))
    case _ => p
  }

  function ParseLines(p: Parsed, lines: seq<string>): Parsed
    decreases |lines|
  {
    if lines == [] then p else ParseLines(ParseLine(p, lines[0]), lines[1..])
  }

  function Parse(c: Client, xdp: string): Parsed {
    ParseLines(Parsed(c.(privs := "none"), [], None), Split(xdp))
  }

  lemma ParseCons(p: Parsed, line: string, lines: seq<string>)
    ensures ParseLines(p, [line] + lines) == ParseLines(ParseLine(p, line), lines)
  {
    hide ParseLine;
    assert ([line] + lines)[1..] == lines;
  }

  lemma LineReads(tag: string, value: string)
    requires |tag| == 2
    ensures Tag(tag + value) == tag && Rest(tag + value) == value
  {
  }

  predicate OneLine(s: string) { '\n' !in s }

  predicate Printable(i: Info) {
    && OneLine(i.banner) && OneLine(i.privs) && OneLine(i.display) && OneLine(i.contact)
    && INT_MIN <= i.first <= INT_MAX && INT_MIN <= i.last <= INT_MAX
  }

  /** What a client that was in state c makes of i. */
  function Learned(c: Client, i: Info): Parsed {
    var roster := CheckRoster(i.roster);
    Parsed(
      Client(i.privs, i.display, i.first, i.last, i.banner, roster, i.contact, i.bitmap),
      (if i.banner != c.banner then [ChangeBanner(i.banner)] else [])
      + (if roster != c.roster then [UpdateRoster] else [])
      + (if i.contact != c.contact then [ContactAddress(i.contact)] else []),
      if i.bitmap != c.online then Some(i.bitmap) else None)
  }

  lemma {:induction false} NumberOnOneLine(n: int)
    ensures OneLine(IntToString(n))
  {
    var digits := NatToString(if n < 0 then -n else n);
    assert forall k | 0 <= k < |digits| :: IsDigit(digits[k]);
  }

  lemma LinesOnOneLine(i: Info)
    requires Printable(i)
    ensures forall k :: 0 <= k < |Lines(i)| ==> OneLine(Lines(i)[k])
  {
    hide IntToString, Base64.Encode, Base64.Bytes;
    NumberOnOneLine(i.first);
    NumberOnOneLine(i.last);
    NumberOnOneLine(CheckRoster(i.roster));
    NumberOnOneLine(i.sequence);
    Base64.EncodesOnOneLine(Base64.Bytes(i.bitmap));
  }

  lemma RosterReads(changes: nat)
    ensures ToUInt(IntToString(CheckRoster(changes))) == CheckRoster(changes)
  {
    ReadPrinted(CheckRoster(changes));
  }

  lemma BitmapReads(bitmap: seq<bv8>)
    ensures Decoded(Base64.Encode(Base64.Bytes(bitmap))) == bitmap
  {
    Base64.RoundTrip(Base64.Bytes(bitmap));
    Base64.BitsOfBytes(bitmap);
  }

  lemma ParseAt(p: Parsed, lines: seq<string>, k: nat)
    requires k < |lines|
    ensures ParseLines(p, lines[k..]) == ParseLines(ParseLine(p, lines[k]), lines[k + 1..])
  {
    hide ParseLine;
    assert lines[k..] == [lines[k]] + lines[k + 1..];
    ParseCons(p, lines[k], lines[k + 1..]);
  }

  /** The lines the client takes no notice of. */
  lemma SkipsLines(p: Parsed, value: string)
    ensures ParseLine(p, "v=0") == p && ParseLine(p, "s=" + value) == p && ParseLine(p, "") == p
  {
    hide Decoded, ToInt, ToUInt;
    LineReads("s=", value);
    LineReads("v=", "0");
    assert "v=0" == "v=" + "0";
  }

  lemma ReadsTexts(p: Parsed, i: Info)
    ensures ParseLine(p, "b=" + i.banner)
            == if i.banner == p.client.banner then p
               else p.(client := p.client.(banner := i.banner), signals := p.signals + [ChangeBanner(i.banner)])
    ensures ParseLine(p, "p=" + i.privs) == p.(client := p.client.(privs := i.privs))
    ensures ParseLine(p, "d=" + i.display) == p.(client := p.client.(display := i.display))
  {
    hide Decoded, ToInt, ToUInt, Tag, Rest;
    LineReads("b=", i.banner);
    LineReads("p=", i.privs);
    LineReads("d=", i.display);
  }

  lemma ReadsNumbers(p: Parsed, i: Info)
    requires Printable(i)
    ensures ParseLine(p, "f=" + IntToString(i.first)) == p.(client := p.client.(first := i.first))
    ensures ParseLine(p, "l=" + IntToString(i.last)) == p.(client := p.client.(last := i.last))
    ensures var roster := CheckRoster(i.roster);
      ParseLine(p, "r=" + IntToString(CheckRoster(i.roster)))
      == p.(client := p.client.(roster := roster),
            signals := p.signals + if roster != p.client.roster then [UpdateRoster] else [])
  {
    hide Decoded, ToInt, ToUInt, IntToString, Tag, Rest;
    LineReads("f=", IntToString(i.first));
    LineReads("l=", IntToString(i.last));
    LineReads("r=", IntToString(CheckRoster(i.roster)));
    IntRoundTrip(i.first);
    IntRoundTrip(i.last);
    RosterReads(i.roster);
  }

  lemma ReadsContactAndBitmap(p: Parsed, i: Info)
    ensures ParseLine(p, "c=" + i.contact)
            == p.(client := p.client.(contact := i.contact),
                  signals := p.signals + if i.contact != p.client.contact then [ContactAddress(i.contact)] else [])
    ensures ParseLine(p, "a=" + Base64.Encode(Base64.Bytes(i.bitmap)))
            == if i.bitmap == p.client.online then p
               else p.(client := p.client.(online := i.bitmap), bitmap := Some(i.bitmap))
  {
    hide Decoded, ToInt, ToUInt, Tag, Rest, Base64.Encode, Base64.Bytes;
    LineReads("c=", i.contact);
    LineReads("a=", Base64.Encode(Base64.Bytes(i.bitmap)));
    BitmapReads(i.bitmap);
  }

  function AfterTexts(c: Client, i: Info): Parsed {
    Parsed(c.(banner := i.banner, privs := i.privs, display := i.display),
           if i.banner != c.banner then [ChangeBanner(i.banner)] else [], None)
  }

  function AfterNumbers(p: Parsed, i: Info): Parsed {
    var roster := CheckRoster(i.roster);
    Parsed(p.client.(first := i.first, last := i.last, roster := roster),
           p.signals + if roster != p.client.roster then [UpdateRoster] else [], p.bitmap)
  }

  lemma TextsAreLearned(c: Client, i: Info, all: seq<string>)
    requires all == Lines(i) + [""]
    ensures ParseLines(Parsed(c.(privs := "none"), [], None), all) == ParseLines(AfterTexts(c, i), all[4..])
  {
    hide ParseLine, ParseLines, IntToString, CheckRoster, Base64.Encode, Base64.Bytes;
    var p0 := Parsed(c.(privs := "none"), [], None);
    ParseAt(p0, all, 0);
    SkipsLines(p0, "");
    ParseAt(p0, all, 1);
    ReadsTexts(p0, i);
    var p1 := ParseLine(p0, all[1]);
    ParseAt(p1, all, 2);
    ReadsTexts(p1, i);
    var p2 := ParseLine(p1, all[2]);
    ParseAt(p2, all, 3);
    ReadsTexts(p2, i);
    assert all[0..] == all;
    assert [] + [ChangeBanner(i.banner)] == [ChangeBanner(i.banner)];
  }

  lemma NumbersAreLearned(p: Parsed, i: Info, all: seq<string>)
    requires all == Lines(i) + [""] && Printable(i)
    ensures ParseLines(p, all[4..]) == ParseLines(AfterNumbers(p, i), all[8..])
  {
    hide ParseLine, ParseLines, IntToString, CheckRoster, Base64.Encode, Base64.Bytes;
    ParseAt(p, all, 4);
    ReadsNumbers(p, i);
    var p4 := ParseLine(p, all[4]);
    ParseAt(p4, all, 5);
    ReadsNumbers(p4, i);
    var p5 := ParseLine(p4, all[5]);
    ParseAt(p5, all, 6);
    ReadsNumbers(p5, i);
    var p6 := ParseLine(p5, all[6]);
    ParseAt(p6, all, 7);
    SkipsLines(p6, IntToString(i.sequence));
  }

  lemma RestIsLearned(p: Parsed, i: Info, all: seq<string>)
    requires all == Lines(i) + [""] && p.bitmap == None
    ensures ParseLines(p, all[8..])
            == Parsed(p.client.(contact := i.contact, online := i.bitmap),
                      p.signals + if i.contact != p.client.contact then [ContactAddress(i.contact)] else [],
                      if i.bitmap != p.client.online then Some(i.bitmap) else None)
  {
    hide ParseLine, ParseLines, IntToString, CheckRoster, Base64.Encode, Base64.Bytes;
    ParseAt(p, all, 8);
    ReadsContactAndBitmap(p, i);
    var p8 := ParseLine(p, all[8]);
    ParseAt(p8, all, 9);
    ReadsContactAndBitmap(p8, i);
    var p9 := ParseLine(p8, all[9]);
    ParseAt(p9, all, 10);
    SkipsLines(p9, "");
    ParseNothing(p9);
    assert all[11..] == [];
  }

  /** Line by line the client learns what was printed. */
  lemma LinesAreLearned(c: Client, i: Info)
    requires Printable(i)
    ensures ParseLines(Parsed(c.(privs := "none"), [], None), Lines(i) + [""]) == Learned(c, i)
  {
    hide ParseLines, Lines, Printable;
    var all := Lines(i) + [""];
    TextsAreLearned(c, i, all);
    NumbersAreLearned(AfterTexts(c, i), i, all);
    RestIsLearned(AfterNumbers(AfterTexts(c, i), i), i, all);
  }

  lemma ParseNothing(p: Parsed)
    ensures ParseLines(p, []) == p
  {
  }

  /**
   * The client recovers what was printed, whatever it knew before: privileges, display, range,
   * contact, bitmap and the remainder of the roster's counter. It signals exactly the values that
   * differ from the ones it read before.
   */
  lemma RoundTrip(c: Client, i: Info, device: string)
    requires Printable(i) && device != "NONE"
    ensures Parse(c, Composed(device, i)) == Learned(c, i)
  {
    hide ParseLines, Lines, Printable, Split, Joined;
    LinesOnOneLine(i);
    SplitJoined(Lines(i));
    LinesAreLearned(c, i);
  }

  /**
   * Between two registrations of a process the client asks for the roster again unless the number of
   * changes in between was a multiple of 8192, whether or not it has reconnected with a new listener:
   * all that carries over is the roster number.
   */
  lemma RosterAskedIff(first: Client, second: Client, before: Info, after: Info, device: string)
    requires Printable(before) && Printable(after) && device != "NONE" && before.roster <= after.roster
    requires second.roster == Parse(first, Composed(device, before)).client.roster
    ensures UpdateRoster in Parse(second, Composed(device, after)).signals <==> (after.roster - before.roster) % 8192 != 0
  {
    hide Parse, Composed, Printable;
    RoundTrip(first, before, device);
    RoundTrip(second, after, device);
    SameRemainderIff(before.roster, after.roster);
  }

  /** A process that never read a roster number asks at its first registration. */
  lemma FirstRegistrationAsks(c: Client, i: Info, device: string)
    requires Printable(i) && device != "NONE" && c.roster == ROSTER_UNREAD
    ensures UpdateRoster in Parse(c, Composed(device, i)).signals
  {
    hide Parse, Composed, Printable;
    RoundTrip(c, i, device);
  }

  lemma SameRemainderIff(a: nat, b: nat)
    requires a <= b
    ensures a % 8192 == b % 8192 <==> (b - a) % 8192 == 0
  {
  }
}
