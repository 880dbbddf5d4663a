/** SIP URIs (section 19.1 of RFC 3261): how the program prints one and how it takes one apart. */
module Uri {
  import opened Text
  import opened UStrings

  datatype Contact = Contact(user: string, host: string, port: int)

  // ---- Qt's string operations ----

  function IndexOf(s: string, c: char): (i: int)
    ensures if c in s then 0 <= i < |s| && s[i] == c && c !in s[..i] else i == -1
  {
    if s == "" then -1
    else if s[0] == c then 0
    else
      var i := IndexOf(s[1..], c);
      if i < 0 then -1 else i + 1
  }

  function LastIndexOf(s: string, c: char): (i: int)
    ensures if c in s then 0 <= i < |s| && s[i] == c && c !in s[i + 1..] else i == -1
  {
    if s == "" then -1
    else if s[|s| - 1] == c then |s| - 1
    else LastIndexOf(s[..|s| - 1], c)
  }

  /** A negative length asks for the whole text. */
  function Left(s: string, n: int): string { if n < 0 || n > |s| then s else s[..n] }

  function From(s: string, pos: nat): string { if pos > |s| then "" else s[pos..] }

  /** A cast to 16 bits. */
  function AsPort(i: int): int { i % 0x1_0000 }

  // ---- printing ----

  function Suffix(prefix: string, port: int): string
    requires port >= 0
  {
    if port == 0 || (prefix == "sip:" && port == 5060) || (prefix == "sips:" && port == 5061) then ""
    else ":" + NatToString(port)
  }

  function Host(server: string): string {
    var host := Unquote(server, '[', ']');
    if ':' in host then "[" + host + "]" else host
  }

  function Print(schema: string, user: string, server: string, port: int): string
    requires port >= 0
  {
    Lower(schema) + user + "@" + Host(server) + Suffix(Lower(schema), port)
  }

  // ---- taking apart ----

  function SchemePort(uri: string): int {
    if Lower(Left(uri, 4)) == "sip:" then 5060 else if Lower(Left(uri, 5)) == "sips:" then 5061 else 0
  }

  function SchemeLength(uri: string): nat {
    if SchemePort(uri) == 5060 then 4 else if SchemePort(uri) == 5061 then 5 else 0
  }

  /** The part of the parser that reads host and port. */
  function ReadServer(user: string, server: string, port: int): Contact {
    var bracket := IndexOf(server, '[');
    var lead := if bracket < 1 then 0 else bracket;
    if IndexOf(server[lead..], ':') == LastIndexOf(server, ':') then
      var host := if lead > 0 then Left(server, lead) else Left(server, IndexOf(server, ':'));
      var read := AsPort(ToInt(server[LastIndexOf(server, ':') + 1..]));
      Contact(user, host, if read == 0 then 5060 else read)
    else
      Contact(user, server, if port == 0 then 5060 else port)
  }

  /** A text without '@' is a user at the given server, whose own scheme counts if the text had none. */
  function Parse(uri: string, server: string): Contact {
    var lead, port, at := SchemeLength(uri), SchemePort(uri), IndexOf(uri, '@');
    if at > 0 then
      ReadServer(if lead <= at then uri[lead..at] else uri[lead..], uri[at + 1..], port)
    else
      var length := SchemeLength(server);
      ReadServer(From(uri, lead), From(server, length), if port == 0 then SchemePort(server) else port)
  }

  // ---- the round trip ----

  predicate PlainHost(host: string) {
    '@' !in host && '[' !in host && ']' !in host && forall k :: 0 <= k < |host| ==> !Space(host[k])
  }

  lemma IndexIs(s: string, c: char, i: nat)
    requires i < |s| && s[i] == c && c !in s[..i]
    ensures IndexOf(s, c) == i
  {
  }

  lemma LastIndexIs(s: string, c: char, i: nat)
    requires i < |s| && s[i] == c && c !in s[i + 1..]
    ensures LastIndexOf(s, c) == i
  {
  }

  lemma TrimmedPlain(s: string)
    requires forall k :: 0 <= k < |s| ==> !Space(s[k])
    ensures Trimmed(s) == s
  {
  }

  lemma PlainHostPrints(host: string)
    requires PlainHost(host)
    ensures Host(host) == if ':' in host then "[" + host + "]" else host
  {
    TrimmedPlain(host);
    assert host != "" ==> host[0] in host;
  }

  lemma SchemeReads(prefix: string, rest: string)
    requires prefix == "sip:" || prefix == "sips:"
    ensures SchemePort(prefix + rest) == if prefix == "sip:" then 5060 else 5061
    ensures SchemeLength(prefix + rest) == |prefix|
  {
    var text := prefix + rest;
    if prefix == "sip:" {
      assert text[..4] == prefix && Lower(text[..4]) == prefix;
    } else {
      assert text[..4] == "sips" && Lower(text[..4])[3] == 's';
      assert Left(text, 5) == prefix && Lower(prefix) == prefix;
    }
  }

  lemma PrintedParts(prefix: string, user: string, server: string)
    requires (prefix == "sip:" || prefix == "sips:") && '@' !in user
    ensures Parse(prefix + user + "@" + server, "")
            == ReadServer(user, server, if prefix == "sip:" then 5060 else 5061)
  {
    hide ReadServer, SchemePort, SchemeLength;
    var text := prefix + user + "@" + server;
    assert text == prefix + (user + "@" + server);
    SchemeReads(prefix, user + "@" + server);
    var at := |prefix| + |user|;
    assert text[..at] == prefix + user && text[at] == '@' && text[|prefix|..at] == user && text[at + 1..] == server;
    assert '@' !in prefix;
    IndexIs(text, '@', at);
  }

  lemma DigitsArePlain(digits: string, c: char)
    requires AllDigits(digits) && !IsDigit(c)
    ensures c !in digits
  {
  }

  lemma ColonAt(host: string, digits: string)
    requires ':' !in host && '[' !in host && AllDigits(digits)
    ensures var server := host + (":" + digits);
      && '[' !in server && IndexOf(server, ':') == LastIndexOf(server, ':') == |host|
      && server[..|host|] == host && server[|host| + 1..] == digits && server[0..] == server
  {
    var server := host + (":" + digits);
    DigitsArePlain(digits, ':');
    DigitsArePlain(digits, '[');
    assert server[..|host|] == host && server[|host| + 1..] == digits;
    IndexIs(server, ':', |host|);
    LastIndexIs(server, ':', |host|);
  }

  lemma ReadsAtColon(user: string, server: string, at: nat, standard: int)
    requires '[' !in server && IndexOf(server, ':') == LastIndexOf(server, ':') == at && at < |server| && server[0..] == server
    ensures ReadServer(user, server, standard)
            == Contact(user, server[..at], if AsPort(ToInt(server[at + 1..])) == 0 then 5060 else AsPort(ToInt(server[at + 1..])))
  {
    hide ToInt;
  }

  lemma ReadsHostAndPort(user: string, host: string, port: nat, standard: int)
    requires '[' !in host && ':' !in host && 0 < port < 0x1_0000
    ensures ReadServer(user, host + (":" + NatToString(port)), standard) == Contact(user, host, port)
  {
    hide *;
    var digits := NatToString(port);
    var server := host + (":" + digits);
    assert AllDigits(digits) by {
      PrintsDigits(port);
    }
    ColonAt(host, digits);
    ReadsAtColon(user, server, |host|, standard);
    PortReads(port);
  }

  lemma PrintsDigits(n: nat)
    ensures AllDigits(NatToString(n))
  {
  }

  lemma PortReads(port: nat)
    requires 0 < port < 0x1_0000
    ensures AsPort(ToInt(NatToString(port))) == port
  {
    IntRoundTrip(port);
  }

  lemma ReadsHostAlone(user: string, host: string, standard: int)
    requires PlainHost(host) && ':' !in host
    ensures ReadServer(user, host, standard)
            == Contact(user, host, if AsPort(ToInt(host)) == 0 then 5060 else AsPort(ToInt(host)))
  {
    hide ToInt;
    assert host[0..] == host;
  }

  lemma HostHasNoBracket(host: string)
    requires PlainHost(host)
    ensures '[' !in host
  {
  }

  /** The port of which nothing is printed when it is left out; 0 is never printed. */
  predicate Omitted(prefix: string, port: int) {
    port == 0 || (prefix == "sip:" && port == 5060) || (prefix == "sips:" && port == 5061)
  }

  /**
   * When the printed port comes back. A printed one always does. An omitted 5060 does unless the
   * host name itself reads as another number, and an omitted 5061 only if the host name happens to
   * read as 5061: the parser falls back on 5060 for both schemes.
   */
  predicate PortSurvives(prefix: string, host: string, port: int) {
    if port == 0 then false
    else if prefix == "sip:" && port == 5060 then AsPort(ToInt(host)) in {0, 5060}
    else if prefix == "sips:" && port == 5061 then AsPort(ToInt(host)) == 5061
    else true
  }

  /** User and host come back for every name, the port exactly when it survives. */
  lemma NameRoundTrip(schema: string, user: string, host: string, port: int)
    requires (Lower(schema) == "sip:" || Lower(schema) == "sips:") && '@' !in user
    requires PlainHost(host) && ':' !in host && 0 <= port < 0x1_0000
    ensures var c := Parse(Print(schema, user, host, port), "");
      c.user == user && c.host == host && (c.port == port <==> PortSurvives(Lower(schema), host, port))
  {
    hide Lower, PlainHost, Parse, ReadServer, ToInt, NatToString;
    var prefix := Lower(schema);
    PlainHostPrints(host);
    var suffix := Suffix(prefix, port);
    assert Print(schema, user, host, port) == prefix + user + "@" + (host + suffix);
    PrintedParts(prefix, user, host + suffix);
    var standard := if prefix == "sip:" then 5060 else 5061;
    if Omitted(prefix, port) {
      assert host + suffix == host;
      ReadsHostAlone(user, host, standard);
    } else {
      assert '[' !in host by {
        HostHasNoBracket(host);
      }
      ReadsHostAndPort(user, host, port, standard);
    }
  }

  lemma ReadsBracket(user: string, server: string, standard: int)
    requires server != "" && server[0] == '[' && ':' in server
    ensures var host := ReadServer(user, server, standard).host; host != "" && host[0] == '['
  {
    hide ToInt;
    assert IndexOf(server, '[') == 0 by {
      IndexIs(server, '[', 0);
    }
    assert server[0..] == server;
  }

  /** An address with colons is printed in brackets and never comes back as the host it was. */
  lemma BracketsStay(schema: string, user: string, host: string, port: int)
    requires (Lower(schema) == "sip:" || Lower(schema) == "sips:") && '@' !in user
    requires PlainHost(host) && ':' in host && 0 <= port < 0x1_0000
    ensures Parse(Print(schema, user, host, port), "").host != host
  {
    assert host[0] != '[';
    var prefix := Lower(schema);
    var server := "[" + host + "]" + Suffix(prefix, port);
    assert server[0] == '[' && ':' in server by {
      var k :| 0 <= k < |host| && host[k] == ':';
      assert server[k + 1] == ':';
    }
    PlainHostPrints(host);
    assert Print(schema, user, host, port) == prefix + user + "@" + server;
    hide *;
    PrintedParts(prefix, user, server);
    ReadsBracket(user, server, if prefix == "sip:" then 5060 else 5061);
  }

  /** Exactly which addresses survive printing and parsing. */
  lemma RoundTripIff(schema: string, user: string, host: string, port: int)
    requires (Lower(schema) == "sip:" || Lower(schema) == "sips:") && '@' !in user
    requires PlainHost(host) && 0 <= port < 0x1_0000
    ensures Parse(Print(schema, user, host, port), "") == Contact(user, host, port)
            <==> ':' !in host && PortSurvives(Lower(schema), host, port)
  {
    hide Parse, Print, PortSurvives, PlainHost, Lower;
    if ':' in host {
      BracketsStay(schema, user, host, port);
    } else {
      NameRoundTrip(schema, user, host, port);
    }
  }
}
