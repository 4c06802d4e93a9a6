/** The owner's cookies: how they are issued, how a browser sends them back, and how the server reads them. */
module Cookies {
  import opened Options
  import opened Rooms

  // ----- the JavaScript library functions involved -----

  /** String.prototype.split with a one-character separator. */
  function Split(s: string, c: char): (pieces: seq<string>)
    ensures |pieces| >= 1
  {
    if s == "" then [""]
    else
      var rest := Split(s[1..], c);
      if s[0] == c then [""] + rest else [[s[0]] + rest[0]] + rest[1..]
  }

  /** The white space and line terminators that String.prototype.trim removes. */
  predicate IsSpace(c: char) {
    c in {' ', '\t', '\n', '\r', '\U{000B}', '\U{000C}', '\U{00A0}', '\U{1680}', '\U{2028}', '\U{2029}',
          '\U{202F}', '\U{205F}', '\U{3000}', '\U{FEFF}'} || '\U{2000}' <= c <= '\U{200A}'
  }

  function TrimStart(s: string): string {
    if s != "" && IsSpace(s[0]) then TrimStart(s[1..]) else s
  }

  function TrimEnd(s: string): string {
    if s != "" && IsSpace(s[|s| - 1]) then TrimEnd(s[..|s| - 1]) else s
  }

  function Trim(s: string): string {
    TrimEnd(TrimStart(s))
  }

  function HexDigit(c: char): Option<nat> {
    if '0' <= c <= '9' then Some((c - '0') as nat)
    else if 'a' <= c <= 'f' then Some((c - 'a') as nat + 10)
    else if 'A' <= c <= 'F' then Some((c - 'A') as nat + 10)
    else None
  }

  /** The byte of an escape %XX at the start of the string. */
  function Escape(s: string): (b: Option<nat>)
    ensures b.Some? ==> |s| >= 3 && b.value < 256
  {
    if |s| >= 3 && s[0] == '%' && HexDigit(s[1]).Some? && HexDigit(s[2]).Some?
    then Some(HexDigit(s[1]).value * 16 + HexDigit(s[2]).value)
    else None
  }

  /** n continuation bytes, each an escape: the code point so far and the rest of the string. */
  function Continue(s: string, n: nat, point: nat): (r: Option<(nat, string)>)
    ensures r.Some? ==> |r.value.1| <= |s|
    decreases n
  {
    if n == 0 then Some((point, s))
    else
      var b := Escape(s);
      if b.None? || !(0x80 <= b.value < 0xC0) then None
      else Continue(s[3..], n - 1, point * 64 + b.value - 0x80)
  }

  /** How many continuation bytes a lead byte announces, its own bits, and the least code point allowed. */
  function Lead(b: nat): Option<(nat, nat, nat)> {
    if 0xC0 <= b < 0xE0 then Some((1, b - 0xC0, 0x80))
    else if 0xE0 <= b < 0xF0 then Some((2, b - 0xE0, 0x800))
    else if 0xF0 <= b < 0xF8 then Some((3, b - 0xF0, 0x10000))
    else None
  }

  /** decodeURIComponent; None is the URIError. */
  function Decode(s: string): Option<string>
    decreases |s|
  {
    if s == "" then Some("")
    else if s[0] != '%' then Prepend(s[0], Decode(s[1..]))
    else
      var b := Escape(s);
      if b.None? then None
      else if b.value < 0x80 then Prepend(b.value as char, Decode(s[3..]))
      else if Lead(b.value).None? then None
      else
        var (n, bits, least) := Lead(b.value).value;
        var tail := Continue(s[3..], n, bits);
        if tail.None? then None
        else
          var (point, rest) := tail.value;
          if point < least || 0xD800 <= point < 0xE000 || point > 0x10FFFF then None
          else Prepend(point as char, Decode(rest))
  }

  function Prepend(c: char, s: Option<string>): Option<string> {
    if s.None? then None else Some([c] + s.value)
  }

  predicate IsUnreserved(c: char) {
    'A' <= c <= 'Z' || 'a' <= c <= 'z' || '0' <= c <= '9' || c in {'-', '_', '.', '!', '~', '*', '\'', '(', ')'}
  }

  function UpperHex(n: nat): char
    requires n < 16
  {
    if n < 10 then '0' + n as char else 'A' + (n - 10) as char
  }

  function EscapeOf(b: nat): string
    requires b < 256
  {
    ['%', UpperHex(b / 16), UpperHex(b % 16)]
  }

  /** A continuation byte. */
  function SixBits(k: nat): string
    requires k < 64
  {
    EscapeOf(0x80 + k)
  }

  /** The bytes of a character (section 3 of RFC 3629), each escaped. */
  function Escaped(c: char): string {
    var n := c as int;
    if n < 0x80 then EscapeOf(n)
    else if n < 0x800 then EscapeOf(0xC0 + n / 64) + SixBits(n % 64)
    else if n < 0x10000 then EscapeOf(0xE0 + n / 4096) + (SixBits(n / 64 % 64) + SixBits(n % 64))
    else EscapeOf(0xF0 + n / 262144) + (SixBits(n / 4096 % 64) + (SixBits(n / 64 % 64) + SixBits(n % 64)))
  }

  /** encodeURIComponent. */
  function Encode(s: string): string {
    if s == "" then "" else (if IsUnreserved(s[0]) then [s[0]] else Escaped(s[0])) + Encode(s[1..])
  }

  // ----- reading -----

  /** One piece of the header, recorded over what came before it. */
  function Record(piece: string, cookies: map<string, string>): Option<map<string, string>> {
    var parts := Split(Trim(piece), '=');
    if parts[0] == "" || |parts| < 2 || parts[1] == "" then Some(cookies)
    else
      var value := Decode(parts[1]);
      if value.None? then None else Some(cookies[parts[0] := value.value])
  }

  function Collect(pieces: seq<string>, cookies: map<string, string>): Option<map<string, string>> {
    if pieces == [] then Some(cookies)
    else
      var recorded := Record(pieces[0], cookies);
      if recorded.None? then None else Collect(pieces[1..], recorded.value)
  }

  /** The name in a piece of the header: what stands before the first '='. */
  function NameIn(piece: string): string {
    Split(Trim(piece), '=')[0]
  }

  /** The value in it: what stands between the first '=' and the second. */
  function ValueIn(piece: string): string {
    var parts := Split(Trim(piece), '=');
    if |parts| < 2 then "" else parts[1]
  }

  predicate Counts(piece: string) {
    NameIn(piece) != "" && ValueIn(piece) != ""
  }

  predicate CountsLast(pieces: seq<string>, i: nat)
    requires i < |pieces|
  {
    Counts(pieces[i]) &&
    forall j :: i < j < |pieces| && Counts(pieces[j]) ==> NameIn(pieces[j]) != NameIn(pieces[i])
  }

  /** The pieces can be read exactly when every value that counts can be decoded; then each name has the decoded value
      of the last piece that gives it one, and names that no piece gives a value have what they had before. */
  ghost predicate LastWins(pieces: seq<string>, before: map<string, string>, read: Option<map<string, string>>) {
    && (read.Some? <==> forall p :: p in pieces && Counts(p) ==> Decode(ValueIn(p)).Some?)
    && (read.Some? ==>
          && (forall i :: 0 <= i < |pieces| && CountsLast(pieces, i) ==>
                Named(read.value, NameIn(pieces[i])) == Decode(ValueIn(pieces[i])))
          && (forall name :: (forall p :: p in pieces && Counts(p) ==> NameIn(p) != name) ==>
                Named(read.value, name) == Named(before, name)))
  }

  lemma LaterPiece(pieces: seq<string>, i: nat)
    requires 0 < i < |pieces|
    ensures CountsLast(pieces[1..], i - 1) <==> CountsLast(pieces, i)
  {
    var rest := pieces[1..];
    if CountsLast(rest, i - 1) {
      forall j | i < j < |pieces| && Counts(pieces[j]) ensures NameIn(pieces[j]) != NameIn(pieces[i]) {
        assert rest[j - 1] == pieces[j];
      }
    }
  }

  lemma RecordCounts(piece: string, before: map<string, string>)
    ensures Record(piece, before) ==
            if !Counts(piece) then Some(before)
            else if Decode(ValueIn(piece)).None? then None
            else Some(before[NameIn(piece) := Decode(ValueIn(piece)).value])
  {}

  lemma OnePieceMore(first: string, rest: seq<string>, before: map<string, string>, recorded: map<string, string>,
                     read: map<string, string>)
    requires LastWins(rest, recorded, Some(read))
    requires if Counts(first) then
               Decode(ValueIn(first)).Some? && recorded == before[NameIn(first) := Decode(ValueIn(first)).value]
             else recorded == before
    ensures LastWins([first] + rest, before, Some(read))
  {
    var pieces := [first] + rest;
    assert pieces[1..] == rest;
    forall i | 0 <= i < |pieces| && CountsLast(pieces, i)
      ensures Named(read, NameIn(pieces[i])) == Decode(ValueIn(pieces[i]))
    {
      if i == 0 {
        FirstIsLast(first, rest);
      } else {
        LaterPiece(pieces, i);
      }
    }
  }

  lemma FirstIsLast(first: string, rest: seq<string>)
    requires CountsLast([first] + rest, 0)
    ensures forall p :: p in rest && Counts(p) ==> NameIn(p) != NameIn(first)
  {
    forall p | p in rest && Counts(p) ensures NameIn(p) != NameIn(first) {
      var j :| 0 <= j < |rest| && rest[j] == p;
      assert ([first] + rest)[j + 1] == p;
    }
  }

  lemma {:induction false} CollectLastWins(pieces: seq<string>, before: map<string, string>)
    ensures LastWins(pieces, before, Collect(pieces, before))
  {
    if pieces != [] {
      var first, rest := pieces[0], pieces[1..];
      assert pieces == [first] + rest;
      RecordCounts(first, before);
      var recorded := Record(first, before);
      if recorded.Some? {
        CollectLastWins(rest, recorded.value);
        if Collect(rest, recorded.value).Some? {
          OnePieceMore(first, rest, before, recorded.value, Collect(rest, recorded.value).value);
        }
      }
    }
  }

  /** None when a value is not decodable: the exception leaves the whole parse without a result. */
  method ParseCookies(header: string) returns (cookies: Option<map<string, string>>)
    ensures cookies == Collect(Split(header, ';'), map[]) && LastWins(Split(header, ';'), map[], cookies)
  {
    CollectLastWins(Split(header, ';'), map[]);
    var found: map<string, string> := map[];
    var pieces := Split(header, ';');
    for n := 0 to |pieces|
      invariant Collect(pieces[n..], found) == Collect(pieces, map[])
    {
      var parts := Split(Trim(pieces[n]), '=');
      if parts[0] != "" && |parts| >= 2 && parts[1] != "" {
        var value := Decode(parts[1]);
        if value.None? {
          return None;
        }
        found := found[parts[0] := value.value];
      }
      assert pieces[n..][1..] == pieces[n + 1..];
    }
    cookies := Some(found);
  }

  /** What JSON.parse makes of a text, as far as the server looks at it. */
  datatype Json = SyntaxError | Object(token: Option<string>) | OtherValue

  function ParseOwnerToken(parse: string -> Json, value: Option<string>): Option<string> {
    if value.None? || value.value == "" then None
    else
      match parse(value.value)
      case Object(token) => if token.Some? && IsHex(token.value, 64) then token else None
      case OtherValue => None
      case SyntaxError => if IsHex(value.value, 64) then value else None
  }

  /** Only 64 lower-case hex digits are read as a token: from the object format the value of its token, from text that
      is not JSON the text itself. */
  lemma TokenRead(parse: string -> Json, value: Option<string>, token: string)
    ensures ParseOwnerToken(parse, value) == Some(token) <==>
            && value.Some? && value.value != ""
            && (parse(value.value) == Object(Some(token))
                || (parse(value.value) == SyntaxError && value.value == token))
            && |token| == 64 && forall c :: c in token ==> '0' <= c <= '9' || 'a' <= c <= 'f'
  {}

  function Named(cookies: map<string, string>, name: string): Option<string> {
    if name in cookies then Some(cookies[name]) else None
  }

  function ReadOwnerCookies(parse: string -> Json, header: string, room: string): Option<OwnerCookies> {
    var cookies := Collect(Split(header, ';'), map[]);
    if cookies.None? then None
    else Some(OwnerCookies(ParseOwnerToken(parse, Named(cookies.value, "owner_token_" + room)),
                           Named(cookies.value, "rid_" + room)))
  }

  // ----- issuing -----

  function OwnerJson(room: string, token: string): string {
    "{\"roomId\":\"" + room + "\",\"token\":\"" + token + "\"}"
  }

  predicate IsRoomId(room: string) {
    |room| == 21 && room[..5] == "room-" && IsHex(room[5..], 16)
  }

  datatype Cookie = Cookie(name: string, value: string)

  /** The Cookie header of section 4.2.1 of RFC 6265. */
  function Header(cookies: seq<Cookie>): string
    requires cookies != []
  {
    if |cookies| == 1 then Pair(cookies[0]) else Pair(cookies[0]) + "; " + Header(cookies[1..])
  }

  function Pair(c: Cookie): string {
    c.name + "=" + c.value
  }

  predicate IsToken(s: string) {
    forall c :: c in s ==> !IsSpace(c) && c != ';'
  }

  predicate WellFormed(c: Cookie) {
    c.name != "" && IsToken(c.name) && '=' !in c.name && IsToken(c.value)
  }

  /** The part of a value before any '=', which is all that the server keeps of it. */
  function Head(value: string): string {
    Split(value, '=')[0]
  }

  predicate Decodable(c: Cookie) {
    Head(c.value) == "" || Decode(Head(c.value)).Some?
  }

  ghost predicate DistinctNames(cookies: seq<Cookie>) {
    forall i, j :: 0 <= i < j < |cookies| ==> cookies[i].name != cookies[j].name
  }

  // ----- splitting and trimming -----

  function Concatenation(pieces: seq<string>, c: char): string
    requires pieces != []
  {
    if |pieces| == 1 then pieces[0] else pieces[0] + [c] + Concatenation(pieces[1..], c)
  }

  /** The pieces hold no separator, and joined by separators they are the text. */
  lemma {:induction false} SplitExactly(s: string, c: char)
    ensures Concatenation(Split(s, c), c) == s
    ensures forall p :: p in Split(s, c) ==> c !in p
  {
    if s != "" {
      SplitExactly(s[1..], c);
      var rest := Split(s[1..], c);
      assert s == [s[0]] + s[1..];
      if s[0] == c {
        assert ([""] + rest)[1..] == rest;
      } else {
        assert ([[s[0]] + rest[0]] + rest[1..])[1..] == rest[1..];
      }
    }
  }

  predicate Blank(s: string) {
    forall c :: c in s ==> IsSpace(c)
  }

  lemma {:induction false} TrimStartExactly(s: string) returns (n: nat)
    ensures n <= |s| && Blank(s[..n]) && TrimStart(s) == s[n..] && (n < |s| ==> !IsSpace(s[n]))
  {
    n := 0;
    if s != "" && IsSpace(s[0]) {
      n := TrimStartExactly(s[1..]);
      assert s[..n + 1] == [s[0]] + s[1..][..n];
      n := n + 1;
    }
  }

  lemma {:induction false} TrimEndExactly(s: string) returns (n: nat)
    ensures n <= |s| && Blank(s[n..]) && TrimEnd(s) == s[..n] && (n > 0 ==> !IsSpace(s[n - 1]))
  {
    n := |s|;
    if s != "" && IsSpace(s[|s| - 1]) {
      var shorter := s[..|s| - 1];
      n := TrimEndExactly(shorter);
      assert s[n..] == shorter[n..] + [s[|s| - 1]] && s[..n] == shorter[..n];
    }
  }

  /** Trimming takes away white space at both ends, and all of it. */
  lemma TrimExactly(s: string) returns (before: string, after: string)
    ensures s == before + Trim(s) + after && Blank(before) && Blank(after)
    ensures Trim(s) != "" ==> !IsSpace(Trim(s)[0]) && !IsSpace(Trim(s)[|Trim(s)| - 1])
  {
    var n := TrimStartExactly(s);
    var m := TrimEndExactly(s[n..]);
    before, after := s[..n], s[n..][m..];
  }

  // ----- splitting what was joined -----

  lemma {:induction false} SplitAt(a: string, c: char, b: string)
    requires c !in a
    ensures Split(a + [c] + b, c) == [a] + Split(b, c)
  {
    var s := a + [c] + b;
    if a == "" {
      assert s[1..] == b;
    } else {
      assert s[1..] == a[1..] + [c] + b;
      SplitAt(a[1..], c, b);
      assert [a[0]] + a[1..] == a;
    }
  }

  lemma {:induction false} SplitNone(a: string, c: char)
    requires c !in a
    ensures Split(a, c) == [a]
  {
    if a != "" {
      SplitNone(a[1..], c);
      assert [a[0]] + a[1..] == a;
    }
  }

  lemma TrimPair(c: Cookie)
    requires WellFormed(c)
    ensures Trim(Pair(c)) == Pair(c) && Trim(" " + Pair(c)) == Pair(c)
  {
    assert Pair(c)[0] == c.name[0];
    assert (" " + Pair(c))[1..] == Pair(c);
    assert c.value != "" ==> Pair(c)[|Pair(c)| - 1] == c.value[|c.value| - 1];
  }

  lemma RecordPair(c: Cookie, cookies: map<string, string>)
    requires WellFormed(c)
    ensures Record(" " + Pair(c), cookies) == Record(Pair(c), cookies)
    ensures Record(Pair(c), cookies) ==
            if Head(c.value) == "" then Some(cookies)
            else if Decode(Head(c.value)).None? then None else Some(cookies[c.name := Decode(Head(c.value)).value])
  {
    TrimPair(c);
    assert Pair(c) == c.name + ['='] + c.value;
    SplitAt(c.name, '=', c.value);
  }

  /** What the server reads from a header, cookie by cookie. */
  function Received(cookies: seq<Cookie>, found: map<string, string>): Option<map<string, string>> {
    if cookies == [] then Some(found)
    else
      var recorded := Record(Pair(cookies[0]), found);
      if recorded.None? then None else Received(cookies[1..], recorded.value)
  }

  lemma {:induction false} HeaderReceived(cookies: seq<Cookie>, found: map<string, string>)
    requires cookies != [] && forall c :: c in cookies ==> WellFormed(c)
    ensures Collect(Split(Header(cookies), ';'), found) == Received(cookies, found)
    ensures Collect(Split(" " + Header(cookies), ';'), found) == Received(cookies, found)
  {
    var c := cookies[0];
    var h := Header(cookies);
    RecordPair(c, found);
    assert (" " + h)[1..] == h;
    if |cookies| == 1 {
      SplitNone(h, ';');
      assert Split(" " + h, ';') == [" " + h];
      assert cookies[1..] == [];
    } else {
      var rest := Header(cookies[1..]);
      assert h == Pair(c) + [';'] + (" " + rest);
      SplitAt(Pair(c), ';', " " + rest);
      assert Split(" " + h, ';') == [" " + Pair(c)] + Split(" " + rest, ';');
      var recorded := Record(Pair(c), found);
      if recorded.Some? {
        HeaderReceived(cookies[1..], recorded.value);
      }
    }
  }

  lemma {:induction false} ReceivedValues(cookies: seq<Cookie>, found: map<string, string>)
    requires DistinctNames(cookies) && forall c :: c in cookies ==> WellFormed(c)
    ensures Received(cookies, found).Some? <==> forall c :: c in cookies ==> Decodable(c)
    ensures Received(cookies, found).Some? ==>
              && (forall c :: c in cookies && Head(c.value) != "" ==>
                    Named(Received(cookies, found).value, c.name) == Decode(Head(c.value)))
              && (forall name :: (forall c :: c in cookies ==> c.name != name) ==>
                    Named(Received(cookies, found).value, name) == Named(found, name))
  {
    if cookies != [] {
      var c := cookies[0];
      RecordPair(c, found);
      var recorded := Record(Pair(c), found);
      if recorded.Some? {
        ReceivedValues(cookies[1..], recorded.value);
        forall d | d in cookies[1..] ensures d.name != c.name {
          var i :| 0 <= i < |cookies[1..]| && cookies[1..][i] == d;
          assert cookies[i + 1] == d;
        }
        assert forall d :: d in cookies <==> d == c || d in cookies[1..];
      } else {
        assert c in cookies && !Decodable(c);
      }
    }
  }

  // ----- encoding -----

  lemma HexRoundTrip(n: nat)
    requires n < 16
    ensures HexDigit(UpperHex(n)) == Some(n)
  {}

  lemma EscapeFirst(b: nat, rest: string)
    requires b < 256
    ensures var s := EscapeOf(b) + rest; Escape(s) == Some(b) && s[3..] == rest && s[0] == '%'
  {
    HexRoundTrip(b / 16);
    HexRoundTrip(b % 16);
  }

  lemma ContinueOne(k: nat, tail: string, n: nat, point: nat)
    requires k < 64 && n > 0
    ensures Continue(SixBits(k) + tail, n, point) == Continue(tail, n - 1, point * 64 + k)
  {
    EscapeFirst(0x80 + k, tail);
  }

  lemma ContinueTwo(j: nat, k: nat, rest: string, point: nat)
    requires j < 64 && k < 64
    ensures Continue(SixBits(j) + (SixBits(k) + rest), 2, point) == Some(((point * 64 + j) * 64 + k, rest))
  {
    ContinueOne(j, SixBits(k) + rest, 2, point);
    ContinueOne(k, rest, 1, point * 64 + j);
  }

  /** The bits of a character, six at a time. */
  lemma TwoBytes(c: char) returns (a: nat, k: nat)
    requires 0x80 <= c as int < 0x800
    ensures a < 32 && k < 64 && c as int == a * 64 + k && Escaped(c) == EscapeOf(0xC0 + a) + SixBits(k)
  {
    a, k := c as int / 64, c as int % 64;
  }

  lemma ThreeBytes(c: char) returns (a: nat, j: nat, k: nat)
    requires 0x800 <= c as int < 0x10000
    ensures a < 16 && j < 64 && k < 64 && c as int == (a * 64 + j) * 64 + k
    ensures Escaped(c) == EscapeOf(0xE0 + a) + (SixBits(j) + SixBits(k))
  {
    var n := c as int;
    a, j, k := n / 4096, n / 64 % 64, n % 64;
    assert n / 4096 == n / 64 / 64;
  }

  lemma FourBytes(c: char) returns (a: nat, i: nat, j: nat, k: nat)
    requires 0x10000 <= c as int
    ensures a < 8 && i < 64 && j < 64 && k < 64 && c as int == ((a * 64 + i) * 64 + j) * 64 + k
    ensures Escaped(c) == EscapeOf(0xF0 + a) + (SixBits(i) + (SixBits(j) + SixBits(k)))
  {
    var n := c as int;
    a, i, j, k := n / 262144, n / 4096 % 64, n / 64 % 64, n % 64;
    assert n / 4096 == n / 64 / 64 && n / 262144 == n / 4096 / 64;
  }

  /** A lead byte and what its continuation bytes give make a character. */
  lemma DecodeLead(b: nat, tail: string, c: char, rest: string)
    requires 0xC0 <= b < 0xF8
    requires var (n, bits, least) := Lead(b).value;
             Continue(tail, n, bits) == Some((c as int, rest)) && least <= c as int
    ensures Decode(EscapeOf(b) + tail) == Prepend(c, Decode(rest))
  {
    EscapeFirst(b, tail);
  }

  lemma DecodeOne(c: char, rest: string)
    requires c as int < 0x80
    ensures Decode(EscapeOf(c as int) + rest) == Prepend(c, Decode(rest))
  {
    EscapeFirst(c as int, rest);
  }

  lemma DecodeTwo(a: nat, k: nat, c: char, rest: string)
    requires a < 32 && k < 64 && c as int == a * 64 + k && c as int >= 0x80
    ensures Decode(EscapeOf(0xC0 + a) + SixBits(k) + rest) == Prepend(c, Decode(rest))
  {
    var tail := SixBits(k) + rest;
    ContinueOne(k, rest, 1, a);
    DecodeLead(0xC0 + a, tail, c, rest);
    assert EscapeOf(0xC0 + a) + SixBits(k) + rest == EscapeOf(0xC0 + a) + tail;
  }

  lemma DecodeThree(a: nat, j: nat, k: nat, c: char, rest: string)
    requires a < 16 && j < 64 && k < 64 && c as int == (a * 64 + j) * 64 + k && c as int >= 0x800
    ensures Decode(EscapeOf(0xE0 + a) + (SixBits(j) + SixBits(k)) + rest) == Prepend(c, Decode(rest))
  {
    var tail := SixBits(j) + (SixBits(k) + rest);
    ContinueTwo(j, k, rest, a);
    DecodeLead(0xE0 + a, tail, c, rest);
    assert EscapeOf(0xE0 + a) + (SixBits(j) + SixBits(k)) + rest == EscapeOf(0xE0 + a) + tail;
  }

  lemma DecodeFour(a: nat, i: nat, j: nat, k: nat, c: char, rest: string)
    requires a < 8 && i < 64 && j < 64 && k < 64
    requires c as int == ((a * 64 + i) * 64 + j) * 64 + k && c as int >= 0x10000
    ensures Decode(EscapeOf(0xF0 + a) + (SixBits(i) + (SixBits(j) + SixBits(k))) + rest) == Prepend(c, Decode(rest))
  {
    var tail := SixBits(i) + (SixBits(j) + (SixBits(k) + rest));
    ContinueOne(i, SixBits(j) + (SixBits(k) + rest), 3, a);
    ContinueTwo(j, k, rest, a * 64 + i);
    DecodeLead(0xF0 + a, tail, c, rest);
    assert EscapeOf(0xF0 + a) + (SixBits(i) + (SixBits(j) + SixBits(k))) + rest == EscapeOf(0xF0 + a) + tail;
  }

  lemma DecodeEscaped(c: char, rest: string)
    ensures Decode(Escaped(c) + rest) == Prepend(c, Decode(rest))
  {
    if c as int < 0x80 {
      DecodeOne(c, rest);
    } else if c as int < 0x800 {
      var a, k := TwoBytes(c);
      DecodeTwo(a, k, c, rest);
    } else if c as int < 0x10000 {
      var a, j, k := ThreeBytes(c);
      DecodeThree(a, j, k, c, rest);
    } else {
      var a, i, j, k := FourBytes(c);
      DecodeFour(a, i, j, k, c, rest);
    }
  }

  lemma DecodePlain(c: char, rest: string)
    requires c != '%'
    ensures Decode([c] + rest) == Prepend(c, Decode(rest))
  {
    assert ([c] + rest)[1..] == rest;
  }

  /** Percent-encoding (section 2.1 of RFC 3986) is undone by decoding, whatever the text. */
  lemma {:induction false} EncodeRoundTrip(s: string)
    ensures Decode(Encode(s)) == Some(s)
  {
    if s != "" {
      EncodeRoundTrip(s[1..]);
      assert s == [s[0]] + s[1..];
      if IsUnreserved(s[0]) {
        DecodePlain(s[0], Encode(s[1..]));
      }
      DecodeEscaped(s[0], Encode(s[1..]));
    }
  }

  /** Encoded text holds nothing that splits or trims. */
  lemma {:induction false} EncodeClean(s: string)
    ensures IsToken(Encode(s)) && '=' !in Encode(s) && (s != "" ==> Encode(s) != "")
  {
    if s != "" {
      EncodeClean(s[1..]);
      EscapedClean(s[0]);
    }
  }

  lemma EscapeClean(b: nat)
    requires b < 256
    ensures IsToken(EscapeOf(b)) && '=' !in EscapeOf(b)
  {}

  lemma EscapedClean(c: char)
    ensures IsToken(Escaped(c)) && '=' !in Escaped(c) && Escaped(c) != ""
  {
    forall b: nat | b < 256 ensures IsToken(EscapeOf(b)) && '=' !in EscapeOf(b) {
      EscapeClean(b);
    }
  }

  // ----- the round trip -----

  /** What is taken of JSON.parse: it reads back the issued object, and of 64 hex digits it makes a number if
      they are one in JSON's grammar and a syntax error otherwise. */
  ghost predicate Faithful(parse: string -> Json) {
    && (forall room, token :: IsRoomId(room) && IsHex(token, 64) ==>
        parse(OwnerJson(room, token)) == Object(Some(token)))
    && (forall s :: IsHex(s, 64) ==> parse(s) == if IsJsonNumber(s) then OtherValue else SyntaxError)
  }

  predicate IsDigit(c: char) {
    '0' <= c <= '9'
  }

  function Digits(s: string): nat {
    if s != "" && IsDigit(s[0]) then 1 + Digits(s[1..]) else 0
  }

  /** JSON's number grammar, on text that has no sign, point or capital E. */
  predicate IsJsonNumber(s: string) {
    var n := Digits(s);
    && n >= 1 && n <= |s| && (s[0] == '0' ==> n == 1)
    && (n == |s| || (s[n] == 'e' && n + 1 < |s| && Digits(s[n + 1..]) == |s| - n - 1))
  }

  function TokenCookie(room: string, token: string): Cookie
    requires IsRoomId(room) && IsHex(token, 64)
  {
    Cookie("owner_token_" + room, Encode(OwnerJson(room, token)))
  }

  function RidCookie(room: string, rid: string): Cookie
    requires IsHex(rid, 32)
  {
    Cookie("rid_" + room, Encode(rid))
  }

  /** Sent back among any other well-formed, distinctly named cookies, in any order, the cookies issued for a
      room read as exactly its token and rid, provided every cookie in the header can be decoded. One that
      cannot be makes the whole read fail. */
  lemma {:induction false} CookieRoundTrip(parse: string -> Json, cookies: seq<Cookie>, room: string, token: string,
                                           rid: string)
    requires Faithful(parse) && IsRoomId(room) && IsHex(token, 64) && IsHex(rid, 32)
    requires DistinctNames(cookies) && forall c :: c in cookies ==> WellFormed(c)
    requires TokenCookie(room, token) in cookies && RidCookie(room, rid) in cookies
    ensures ReadOwnerCookies(parse, Header(cookies), room) ==
            if forall c :: c in cookies ==> Decodable(c) then Some(OwnerCookies(Some(token), Some(rid))) else None
  {
    var json := OwnerJson(room, token);
    IssuedRead(cookies, TokenCookie(room, token), json);
    IssuedRead(cookies, RidCookie(room, rid), rid);
    TokenParsed(parse, room, token);
  }

  lemma RoomNames(room: string)
    requires IsRoomId(room)
    ensures IsToken("owner_token_" + room) && '=' !in "owner_token_" + room
    ensures IsToken("rid_" + room) && '=' !in "rid_" + room
    ensures "owner_token_" + room != "rid_" + room && room[0] == 'r'
  {
    assert room == room[..5] + room[5..];
    forall c | c in room ensures !IsSpace(c) && c != ';' && c != '=' {
      assert c in room[..5] || c in room[5..];
    }
    assert ("owner_token_" + room)[0] == 'o' && ("rid_" + room)[0] == 'r';
  }

  lemma IssuedWellFormed(room: string, token: string, rid: string)
    requires IsRoomId(room) && IsHex(token, 64) && IsHex(rid, 32)
    ensures WellFormed(TokenCookie(room, token)) && WellFormed(RidCookie(room, rid))
  {
    RoomNames(room);
    EncodeClean(OwnerJson(room, token));
    EncodeClean(rid);
  }

  /** A lone percent sign, which other software may well put into a cookie. */
  const PERCENT := Cookie("p", "%")

  lemma PercentSpoils()
    ensures WellFormed(PERCENT) && !Decodable(PERCENT)
  {
    SplitNone("%", '=');
    assert Decode("%").None?;
  }

  /** The issued cookies and the percent sign. */
  function WithPercent(room: string, token: string, rid: string): seq<Cookie>
    requires IsRoomId(room) && IsHex(token, 64) && IsHex(rid, 32)
  {
    [TokenCookie(room, token), RidCookie(room, rid), PERCENT]
  }

  lemma WithPercentNames(room: string, token: string, rid: string)
    requires IsRoomId(room) && IsHex(token, 64) && IsHex(rid, 32)
    ensures DistinctNames(WithPercent(room, token, rid))
  {
    assert TokenCookie(room, token).name[0] == 'o' && RidCookie(room, rid).name[0] == 'r' && PERCENT.name[0] == 'p';
  }

  /** Sent along with the issued cookies, one cookie whose value is a percent sign makes the whole read fail. */
  lemma {:induction false} UndecodableSpoilsAll(parse: string -> Json, room: string, token: string, rid: string)
    requires Faithful(parse) && IsRoomId(room) && IsHex(token, 64) && IsHex(rid, 32)
    ensures var cookies := WithPercent(room, token, rid);
            && DistinctNames(cookies) && (forall c :: c in cookies ==> WellFormed(c))
            && ReadOwnerCookies(parse, Header(cookies), room).None?
  {
    WithPercentNames(room, token, rid);
    IssuedWellFormed(room, token, rid);
    PercentSpoils();
    SpoiltRead(parse, WithPercent(room, token, rid), room, token, rid, PERCENT);
  }

  lemma {:induction false} SpoiltRead(parse: string -> Json, cookies: seq<Cookie>, room: string, token: string,
                                      rid: string, spoiler: Cookie)
    requires Faithful(parse) && IsRoomId(room) && IsHex(token, 64) && IsHex(rid, 32)
    requires DistinctNames(cookies) && forall c :: c in cookies ==> WellFormed(c)
    requires TokenCookie(room, token) in cookies && RidCookie(room, rid) in cookies
    requires spoiler in cookies && !Decodable(spoiler)
    ensures ReadOwnerCookies(parse, Header(cookies), room).None?
  {
    CookieRoundTrip(parse, cookies, room, token, rid);
  }

  lemma TokenParsed(parse: string -> Json, room: string, token: string)
    requires Faithful(parse) && IsRoomId(room) && IsHex(token, 64)
    ensures ParseOwnerToken(parse, Some(OwnerJson(room, token))) == Some(token)
  {
    assert parse(OwnerJson(room, token)) == Object(Some(token));
    assert OwnerJson(room, token)[0] == '{';
  }

  /** What the server reads from a header under the name of an encoded cookie. */
  lemma IssuedRead(cookies: seq<Cookie>, c: Cookie, text: string)
    requires DistinctNames(cookies) && forall d :: d in cookies ==> WellFormed(d)
    requires c in cookies && text != "" && c.value == Encode(text)
    ensures var read := Collect(Split(Header(cookies), ';'), map[]);
            && (read.Some? <==> forall d :: d in cookies ==> Decodable(d))
            && (read.Some? ==> Named(read.value, c.name) == Some(text))
  {
    HeaderReceived(cookies, map[]);
    ReceivedValues(cookies, map[]);
    IssuedValue(c, text);
  }

  lemma IssuedValue(c: Cookie, text: string)
    requires text != "" && c.value == Encode(text)
    ensures Head(c.value) != "" && Decode(Head(c.value)) == Some(text)
  {
    EncodeRoundTrip(text);
    EncodeClean(text);
    SplitNone(c.value, '=');
  }

  /** The cookie of the older format, whose value is the plain token. */
  function LegacyCookie(room: string, token: string): Cookie {
    Cookie("owner_token_" + room, token)
  }

  lemma {:induction false} PlainEncoding(s: string)
    requires forall c :: c in s ==> IsUnreserved(c)
    ensures Encode(s) == s
  {
    if s != "" {
      PlainEncoding(s[1..]);
      assert s == [s[0]] + s[1..];
    }
  }

  /** Sent back in a header that can be decoded, a plain token from before the object format is read back
      exactly when it is not a JSON number. */
  lemma LegacyToken(parse: string -> Json, cookies: seq<Cookie>, room: string, token: string)
    requires Faithful(parse) && IsHex(token, 64)
    requires DistinctNames(cookies) && forall c :: c in cookies ==> WellFormed(c) && Decodable(c)
    requires LegacyCookie(room, token) in cookies
    ensures var read := ReadOwnerCookies(parse, Header(cookies), room);
            read.Some? && read.value.token == if IsJsonNumber(token) then None else Some(token)
  {
    PlainEncoding(token);
    IssuedRead(cookies, LegacyCookie(room, token), token);
    LegacyParsed(parse, token);
  }

  lemma LegacyParsed(parse: string -> Json, token: string)
    requires Faithful(parse) && IsHex(token, 64)
    ensures ParseOwnerToken(parse, Some(token)) == if IsJsonNumber(token) then None else Some(token)
  {}

  // ----- both outcomes occur -----

  /** A token of 64 zeros is read back; one of 64 ones is not. */
  lemma LegacyTokenLost() returns (lost: string, kept: string)
    ensures IsHex(lost, 64) && IsJsonNumber(lost)
    ensures IsHex(kept, 64) && !IsJsonNumber(kept)
  {
    lost := seq(64, _ => '1');
    kept := seq(64, _ => '0');
    AllDigits(lost);
    AllDigits(kept);
  }

  lemma {:induction false} AllDigits(s: string)
    requires forall c :: c in s ==> IsDigit(c)
    ensures Digits(s) == |s|
  {
    if s != "" {
      AllDigits(s[1..]);
    }
  }
}
