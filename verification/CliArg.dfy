/** The connection URL parser of core/cli_arg.cpp. */
module ConnectionUrl {
  import opened Wrappers

  datatype Protocol = NONE | UDP | TCP | SERIAL

  /** `Thrown` is the exception of `std::stoi` on a number that does not fit an `int`. */
  datatype Outcome = Accepted | Rejected | Thrown

  /** The fields after a parse. */
  datatype Parsed = Parsed(outcome: Outcome, protocol: Protocol, path: string, port: nat, baudrate: nat)

  const INT_MAX := 0x7FFF_FFFF
  const UINT16_MAX := 0xFFFF

  // ---------------------------------------------------------------- numbers

  predicate IsDigit(c: char) {
    '0' <= c <= '9'
  }

  predicate Digits(s: string) {
    forall i :: 0 <= i < |s| ==> IsDigit(s[i])
  }

  function Value(s: string): nat
    requires Digits(s)
  {
    if s == [] then 0 else 10 * Value(s[..|s| - 1]) + (s[|s| - 1] - '0') as nat
  }

  function Stoi(s: string): Option<nat>
    requires Digits(s)
  {
    if Value(s) <= INT_MAX then Some(Value(s)) else None
  }

  function Digit(d: nat): char
    requires d < 10
  {
    '0' + d as char
  }

  function Decimal(n: nat): (s: string)
    ensures s != [] && Digits(s) && ':' !in s
  {
    if n < 10 then [Digit(n)] else Decimal(n / 10) + [Digit(n % 10)]
  }

  lemma {:induction false} ValueOfDecimal(n: nat)
    ensures Value(Decimal(n)) == n
  {
    var s := Decimal(n);
    if n < 10 {
      assert s[..0] == [];
    } else {
      ValueOfDecimal(n / 10);
      assert s[..|s| - 1] == Decimal(n / 10);
    }
  }

  // ---------------------------------------------------------------- the grammar

  function Scheme(p: Protocol): string {
    match p
    case NONE => ""
    case UDP => "udp://"
    case TCP => "tcp://"
    case SERIAL => "serial://"
  }

  predicate ValidSerialPath(path: string) {
    "/" <= path || ("COM" <= path && |path| > 3 && Digits(path[3..]))
  }

  /** What may follow the path: nothing, or a colon and digits, of which there may be none. */
  function Tail(number: Option<string>): string {
    match number
    case None => ""
    case Some(digits) => ":" + digits
  }

  predicate Fits(p: Protocol, number: Option<string>) {
    number.Some? ==> Digits(number.value) && Value(number.value) <= if p == SERIAL then INT_MAX else UINT16_MAX
  }

  /** `uri` is a connection URL with these parts. */
  predicate IsUrl(uri: string, p: Protocol, path: string, number: Option<string>) {
    && p != NONE && uri == Scheme(p) + path + Tail(number)
    && ':' !in path && Fits(p, number) && (p == SERIAL ==> ValidSerialPath(path))
  }

  function NumberOf(number: Option<string>): nat
    requires number.Some? ==> Digits(number.value)
  {
    if number.None? then 0 else Value(number.value)
  }

  // ---------------------------------------------------------------- what the parser computes

  function ProtocolOf(uri: string): Protocol {
    if Scheme(UDP) <= uri then UDP
    else if Scheme(TCP) <= uri then TCP
    else if Scheme(SERIAL) <= uri then SERIAL
    else NONE
  }

  /** The position of the first colon, or the length. */
  function Colon(s: string): (i: nat)
    ensures i <= |s| && ':' !in s[..i] && (i < |s| ==> s[i] == ':')
  {
    if s == [] || s[0] == ':' then 0
    else
      var i := Colon(s[1..]);
      assert s[..1 + i] == [s[0]] + s[1..][..i];
      1 + i
  }

  function PathOf(rest: string): string {
    rest[..Colon(rest)]
  }

  /** What is left behind the path and its colon. */
  function RestOf(rest: string): string {
    if Colon(rest) == |rest| then "" else rest[Colon(rest) + 1..]
  }

  /** The path kept after a serial path was rejected. */
  function RejectedPath(path: string): string {
    if path == "COM" then path else ""
  }

  function Parse(uri: string): Parsed {
    var p := ProtocolOf(uri);
    if p == NONE then Parsed(Rejected, NONE, "", 0, 0)
    else
      var rest := uri[|Scheme(p)|..];
      Judged(p, PathOf(rest), RestOf(rest))
  }

  function Judged(p: Protocol, path: string, number: string): Parsed {
    if p == SERIAL && !ValidSerialPath(path) then Parsed(Rejected, p, RejectedPath(path), 0, 0)
    else if !Digits(number) then Parsed(Rejected, p, path, 0, 0)
    else if Stoi(number).None? then Parsed(Thrown, p, path, 0, 0)
    else if p == SERIAL then Parsed(Accepted, p, path, 0, Value(number))
    else if Value(number) > UINT16_MAX then Parsed(Rejected, p, path, 0, 0)
    else Parsed(Accepted, p, path, Value(number), 0)
  }

  lemma SchemeIsFound(p: Protocol, rest: string)
    requires p != NONE
    ensures ProtocolOf(Scheme(p) + rest) == p && (Scheme(p) + rest)[|Scheme(p)|..] == rest
  {
    var uri := Scheme(p) + rest;
    assert uri[0] == Scheme(p)[0];
  }

  lemma ColonIsFirst(s: string, i: nat)
    requires i <= |s| && (i < |s| ==> s[i] == ':') && ':' !in s[..i]
    ensures Colon(s) == i
  {
    hide Colon;
  }

  lemma PathIsFound(path: string, number: Option<string>)
    requires ':' !in path
    ensures PathOf(path + Tail(number)) == path
    ensures RestOf(path + Tail(number)) == Written(number)
  {
    hide Colon;
    var s := path + Tail(number);
    assert s[..|path|] == path;
    ColonIsFirst(s, |path|);
    if number.Some? {
      assert s[|path| + 1..] == number.value;
    }
  }

  function Written(number: Option<string>): string {
    if number.None? then "" else number.value
  }

  /** The parts as `Judged` sees them. */
  predicate Acceptable(p: Protocol, path: string, digits: string) {
    && Digits(digits) && Value(digits) <= (if p == SERIAL then INT_MAX else UINT16_MAX)
    && (p == SERIAL ==> ValidSerialPath(path))
  }

  lemma JudgedAcceptable(p: Protocol, path: string, digits: string)
    ensures Judged(p, path, digits).outcome == Accepted <==> Acceptable(p, path, digits)
    ensures Acceptable(p, path, digits) ==>
              Judged(p, path, digits) == if p == SERIAL then Parsed(Accepted, p, path, 0, Value(digits))
                                         else Parsed(Accepted, p, path, Value(digits), 0)
  {
    hide Digits, Value, ValidSerialPath, RejectedPath;
  }

  lemma WrittenFits(p: Protocol, path: string, number: Option<string>)
    ensures Acceptable(p, path, Written(number)) <==> Fits(p, number) && (p == SERIAL ==> ValidSerialPath(path))
    ensures Fits(p, number) ==> Digits(Written(number)) && NumberOf(number) == Value(Written(number))
  {
    hide ValidSerialPath;
    assert Value("") == 0;
  }

  /** Every connection URL is accepted with exactly its parts. */
  lemma UrlIsParsed(uri: string, p: Protocol, path: string, number: Option<string>)
    requires IsUrl(uri, p, path, number)
    ensures Parse(uri) == if p == SERIAL then Parsed(Accepted, p, path, 0, NumberOf(number))
                          else Parsed(Accepted, p, path, NumberOf(number), 0)
  {
    hide ProtocolOf, PathOf, RestOf, Judged, Acceptable, Fits, Scheme, Tail, ValidSerialPath, Written, NumberOf;
    var rest := path + Tail(number);
    assert uri == Scheme(p) + rest;
    SchemeIsFound(p, rest);
    PathIsFound(path, number);
    WrittenFits(p, path, number);
    JudgedAcceptable(p, path, Written(number));
  }

  lemma SchemeSplits(uri: string)
    ensures var p := ProtocolOf(uri); |Scheme(p)| <= |uri| && uri == Scheme(p) + uri[|Scheme(p)|..]
  {
  }

  lemma ColonSplits(rest: string) returns (number: Option<string>)
    ensures rest == PathOf(rest) + Tail(number) && ':' !in PathOf(rest) && RestOf(rest) == Written(number)
  {
    hide Colon;
    number := if Colon(rest) == |rest| then None else Some(RestOf(rest));
  }

  /** And nothing else is accepted. */
  lemma AcceptedIffUrl(uri: string)
    ensures Parse(uri).outcome == Accepted <==> exists p, path, number :: IsUrl(uri, p, path, number)
  {
    hide Judged, ProtocolOf, PathOf, RestOf, Scheme, Tail, Acceptable, Fits, ValidSerialPath, Written;
    if Parse(uri).outcome == Accepted {
      var p := ProtocolOf(uri);
      SchemeSplits(uri);
      var rest := uri[|Scheme(p)|..];
      var path := PathOf(rest);
      var number := ColonSplits(rest);
      JudgedAcceptable(p, path, Written(number));
      WrittenFits(p, path, number);
      assert uri == Scheme(p) + path + Tail(number);
      assert IsUrl(uri, p, path, number);
    }
    if p, path, number :| IsUrl(uri, p, path, number) {
      UrlIsParsed(uri, p, path, number);
    }
  }

  /** A printed UDP or TCP address parses back to itself. */
  lemma SocketRoundTrip(p: Protocol, host: string, port: nat)
    requires (p == UDP || p == TCP) && ':' !in host && port <= UINT16_MAX
    ensures Parse(Scheme(p) + host + ":" + Decimal(port)) == Parsed(Accepted, p, host, port, 0)
  {
    hide Parse;
    ValueOfDecimal(port);
    var uri := Scheme(p) + host + ":" + Decimal(port);
    assert uri == Scheme(p) + host + Tail(Some(Decimal(port)));
    UrlIsParsed(uri, p, host, Some(Decimal(port)));
  }

  /** So does a printed serial device. */
  lemma SerialRoundTrip(path: string, baudrate: nat)
    requires ValidSerialPath(path) && ':' !in path && baudrate <= INT_MAX
    ensures Parse(Scheme(SERIAL) + path + ":" + Decimal(baudrate)) == Parsed(Accepted, SERIAL, path, 0, baudrate)
  {
    hide Parse;
    ValueOfDecimal(baudrate);
    var uri := Scheme(SERIAL) + path + ":" + Decimal(baudrate);
    assert uri == Scheme(SERIAL) + path + Tail(Some(Decimal(baudrate)));
    UrlIsParsed(uri, SERIAL, path, Some(Decimal(baudrate)));
  }

  /** Whatever is parsed, the fields stay within their types, and a port is only set by an accepted
      UDP or TCP address. */
  lemma FieldsInRange(uri: string)
    ensures Parse(uri).port <= UINT16_MAX && Parse(uri).baudrate <= INT_MAX
    ensures Parse(uri).port != 0 ==> Parse(uri).outcome == Accepted && Parse(uri).protocol in {UDP, TCP}
    ensures Parse(uri).baudrate != 0 ==> Parse(uri).outcome == Accepted && Parse(uri).protocol == SERIAL
  {
    hide ProtocolOf, Scheme, PathOf, RestOf, Digits, Value, ValidSerialPath, RejectedPath;
  }

  /** The three schemes, in letters, and what becomes of a printed number behind each: a port is accepted
      up to 65535 and a rate up to what fits an int, which larger ports raise an exception for as well. */
  lemma PrintedNumbers(p: Protocol, path: string, n: nat)
    requires p != NONE && ':' !in path && (p == SERIAL ==> ValidSerialPath(path))
    ensures Scheme(p) == (match p case UDP => "udp://" case TCP => "tcp://" case _ => "serial://")
    ensures var parsed := Parse(Scheme(p) + path + ":" + Decimal(n));
            && parsed.protocol == p && parsed.path == path
            && parsed.outcome == (if n > 2_147_483_647 then Thrown else if p != SERIAL && n > 65_535 then Rejected
                                  else Accepted)
            && parsed.port == (if p != SERIAL && n <= 65_535 then n else 0)
            && parsed.baudrate == (if p == SERIAL && n <= 2_147_483_647 then n else 0)
  {
    hide ProtocolOf, PathOf, RestOf, Tail, ValidSerialPath, RejectedPath, Decimal;
    ValueOfDecimal(n);
    var rest := path + Tail(Some(Decimal(n)));
    TailOf(Decimal(n));
    assert Scheme(p) + path + ":" + Decimal(n) == Scheme(p) + rest;
    SchemeIsFound(p, rest);
    PathIsFound(path, Some(Decimal(n)));
  }

  lemma TailOf(digits: string)
    ensures Tail(Some(digits)) == ":" + digits
  {
  }

  /** Numbers are printed and read in base ten. */
  lemma InBaseTen()
    ensures Decimal(14_540) == "14540" && Value("14540") == 14_540
  {
    hide Value;
    assert Decimal(14) == "14";
    assert Decimal(1_454) == "1454";
    ValueOfDecimal(14_540);
  }

  /** A serial path starts with a slash, or is COM and at least one digit; of a rejected one at most the
      bare COM is kept. */
  lemma SerialPaths(path: string)
    requires ':' !in path && path != ""
    ensures var parsed := Parse("serial://" + path);
            var valid := path[0] == '/' || (|path| > 3 && path[..3] == "COM" && Digits(path[3..]));
            && parsed.protocol == SERIAL && parsed.outcome == (if valid then Accepted else Rejected)
            && parsed.path == (if valid || path == "COM" then path else "")
  {
    hide ProtocolOf, PathOf, RestOf, Tail;
    SchemeIsFound(SERIAL, path);
    PathIsFound(path, None);
    NoTail();
    assert path + "" == path && Value("") == 0;
  }

  lemma NoTail()
    ensures Tail(None) == ""
  {
  }

  // ---------------------------------------------------------------- the parser

  class CliArg {
    var protocol: Protocol
    var path: string
    var port: nat
    var baudrate: nat

    constructor ()
      ensures protocol == NONE && path == "" && port == 0 && baudrate == 0
    {
      protocol, path, port, baudrate := NONE, "", 0, 0;
    }

    ghost function Fields(outcome: Outcome): Parsed
      reads this
    {
      Parsed(outcome, protocol, path, port, baudrate)
    }

    method Reset()
      modifies this
      ensures protocol == NONE && path == "" && port == 0 && baudrate == 0
    {
      protocol, path, baudrate, port := NONE, "", 0, 0;
    }

    /** Whatever was parsed before. */
    method ParseUri(uri: string) returns (outcome: Outcome)
      modifies this
      ensures Fields(outcome) == Parse(uri)
    {
      hide PathOf, RestOf, ValidSerialPath, Value;
      Reset();
      var rest := uri;
      var ok;
      ok, rest := FindProtocol(rest);
      if !ok {
        return Rejected;
      }
      ok, rest := FindPath(rest);
      if !ok {
        return Rejected;
      }
      if protocol == SERIAL {
        outcome := FindBaudrate(rest);
      } else {
        outcome := FindPort(rest);
      }
    }

    method FindProtocol(uri: string) returns (ok: bool, rest: string)
      requires protocol == NONE
      modifies this`protocol
      ensures protocol == ProtocolOf(uri) && (ok <==> protocol != NONE)
      ensures rest == uri[|Scheme(protocol)|..]
    {
      ok, rest := true, uri;
      if "udp" + "://" <= uri {
        protocol := UDP;
        rest := uri[6..];
      } else if "tcp" + "://" <= uri {
        protocol := TCP;
        rest := uri[6..];
      } else if "serial" + "://" <= uri {
        protocol := SERIAL;
        rest := uri[9..];
      } else {
        ok := false;
      }
    }

    method FindPath(uri: string) returns (ok: bool, rest: string)
      requires protocol != NONE && path == ""
      modifies this`path
      ensures rest == RestOf(uri)
      ensures ok <==> (protocol == SERIAL ==> ValidSerialPath(PathOf(uri)))
      ensures path == if ok then PathOf(uri) else RejectedPath(PathOf(uri))
    {
      if |uri| == 0 {
        ok, rest := protocol == UDP || protocol == TCP, "";
        return;
      }
      var pos := Find(uri, ':');
      if pos != |uri| {
        path, rest := uri[..pos], uri[pos + 1..];
      } else {
        path, rest := uri, "";
      }
      assert path == PathOf(uri);
      ok := true;
      if protocol == SERIAL {
        if "/" <= path {
        } else if "COM" <= path {
          if |path| == 3 {
            return false, rest;
          }
          var digits := AllDigits(path[3..]);
          if !digits {
            path := "";
            return false, rest;
          }
        } else {
          path := "";
          return false, rest;
        }
      }
    }

    method FindPort(rest: string) returns (outcome: Outcome)
      requires port == 0
      modifies this`port
      ensures outcome == if !Digits(rest) then Rejected else if Stoi(rest).None? then Thrown
                         else if Value(rest) > UINT16_MAX then Rejected else Accepted
      ensures port == if outcome == Accepted then Value(rest) else 0
    {
      if |rest| == 0 {
        port := 0;
        return Accepted;
      }
      var digits := AllDigits(rest);
      if !digits {
        return Rejected;
      }
      var number := Stoi(rest);
      if number.None? {
        return Thrown;
      }
      port := number.value;
      if port > UINT16_MAX {
        port := 0;
        return Rejected;
      }
      outcome := Accepted;
    }

    method FindBaudrate(rest: string) returns (outcome: Outcome)
      requires port == 0 && baudrate == 0
      modifies this`port, this`baudrate
      ensures outcome == if !Digits(rest) then Rejected else if Stoi(rest).None? then Thrown else Accepted
      ensures port == 0 && baudrate == if outcome == Accepted then Value(rest) else 0
    {
      if |rest| == 0 {
        port := 0;
        return Accepted;
      }
      var digits := AllDigits(rest);
      if !digits {
        return Rejected;
      }
      var number := Stoi(rest);
      if number.None? {
        return Thrown;
      }
      baudrate := number.value;
      outcome := Accepted;
    }
  }

  method AllDigits(s: string) returns (all: bool)
    ensures all == Digits(s)
  {
    for i := 0 to |s|
      invariant forall k :: 0 <= k < i ==> IsDigit(s[k])
    {
      if !IsDigit(s[i]) {
        return false;
      }
    }
    all := true;
  }

  method Find(s: string, c: char) returns (pos: nat)
    ensures pos <= |s| && c !in s[..pos] && (pos < |s| ==> s[pos] == c)
  {
    pos := 0;
    while pos < |s| && s[pos] != c
      invariant pos <= |s| && c !in s[..pos]
    {
      pos := pos + 1;
    }
  }
}
