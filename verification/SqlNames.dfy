/** The printer of names and the rewriter of statements of the pg plugin
    (plugins/pg/sqlnames.go). `sees` is which characters ListedName leaves alone, and
    `listed` is ListedName's own spelling, used for what has no escape. */
module SqlNames {
  import opened Common
  import opened SqlText

  // ----- the printer ------------------------------------------------------------------

  /** n in base 16, with leading zeros to `width` digits. */
  function Hex(n: nat, width: nat): Text
    decreases width
  {
    if width == 0 then [] else Hex(n / 16, width - 1) + [Rune(DigitOf(n % 16))]
  }

  /** The cases of unicodeEscaped's loop. */
  function Spelled(c: char, quote: char, sees: char -> bool): Text {
    if c == quote then [Rune(quote), Rune(quote)]
    else if c == '\\' then [Rune('\\'), Rune('\\')]
    else if sees(c) then [Rune(c)]
    else if c as int > 0xffff then [Rune('\\'), Rune('+')] + Hex(c as int, 6)
    else [Rune('\\')] + Hex(c as int, 4)
  }

  function SpelledAll(s: Text, quote: char, sees: char -> bool): Text
    requires Valid(s)
  {
    if s == [] then [] else Spelled(s[0].c, quote, sees) + SpelledAll(s[1..], quote, sees)
  }

  function UnicodeEscaped(s: Text, quote: char, sees: char -> bool, listed: Text -> Text): Text {
    if !Valid(s) then listed(s)
    else [Rune('U'), Rune('&'), Rune(quote)] + SpelledAll(s, quote, sees) + [Rune(quote)]
  }

  method WriteUnicodeEscaped(s: Text, quote: char, sees: char -> bool, listed: Text -> Text) returns (b: Text)
    ensures b == UnicodeEscaped(s, quote, sees, listed)
  {
    if !Valid(s) {
      return listed(s);
    }
    b := [];
    for i := 0 to |s|
      invariant b + SpelledAll(s[i..], quote, sees) == SpelledAll(s, quote, sees)
    {
      assert s[i..][1..] == s[i + 1..];
      var piece := Spelled(s[i].c, quote, sees);
      Associative(b, piece, SpelledAll(s[i + 1..], quote, sees));
      b := b + piece;
    }
    b := [Rune('U'), Rune('&'), Rune(quote)] + b + [Rune(quote)];
  }

  /** Quotes doubled, which is how pgx quotes a name. */
  function Doubled(s: Text, quote: char): Text {
    if s == [] then []
    else (if s[0] == Rune(quote) then [s[0], s[0]] else [s[0]]) + Doubled(s[1..], quote)
  }

  function SqlName(name: Text, sees: char -> bool, listed: Text -> Text): Text {
    if ReadsAsItself(name, sees) then [Rune('"')] + Doubled(name, '"') + [Rune('"')]
    else UnicodeEscaped(name, '"', sees, listed)
  }

  function Joined(parts: seq<Text>): Text {
    if parts == [] then []
    else if |parts| == 1 then parts[0]
    else parts[0] + [Rune('.')] + Joined(parts[1..])
  }

  function SqlNames(parts: seq<Text>, sees: char -> bool, listed: Text -> Text): seq<Text> {
    seq(|parts|, i requires 0 <= i < |parts| => SqlName(parts[i], sees, listed))
  }

  /** How a name or a string must be printed: plainly when it reads as itself; as a U& form
      that names it when it does not; as it is listed when it is not text. */
  ghost predicate Prints(piece: Text, plain: Text, name: Text, quote: char, sees: char -> bool, listed: Text -> Text) {
    && (ReadsAsItself(name, sees) ==> piece == plain)
    && (!ReadsAsItself(name, sees) && Valid(name) ==>
          exists body :: piece == [Rune('U'), Rune('&'), Rune(quote)] + body + [Rune(quote)]
                         && (Storable(name) ==> Unescape(body, quote) == Some(name)))
    && (!Valid(name) ==> piece == listed(name))
  }

  /** A name, plainly, is in quotes, and a quote in it is doubled. */
  ghost predicate PrintsName(piece: Text, name: Text, sees: char -> bool, listed: Text -> Text) {
    Prints(piece, [Rune('"')] + Doubled(name, '"') + [Rune('"')], name, '"', sees, listed)
  }

  /** The parts of a qualified name joined with dots; nothing that is printed of text is
      other than it shows, raw newlines and escape sequences least of all. */
  method SqlIdentifier(parts: seq<Text>, sees: char -> bool, listed: Text -> Text) returns (r: Text)
    ensures r == Joined(SqlNames(parts, sees, listed))
    ensures exists pieces ::
              && |pieces| == |parts| && r == Joined(pieces)
              && forall i | 0 <= i < |parts| :: PrintsName(pieces[i], parts[i], sees, listed)
    ensures SeesAscii(sees) && (forall i | 0 <= i < |parts| :: Valid(parts[i])) ==> ReadsAsItself(r, sees)
  {
    var quoted := [];
    for i := 0 to |parts|
      invariant quoted == SqlNames(parts, sees, listed)[..i]
    {
      quoted := quoted + [SqlName(parts[i], sees, listed)];
    }
    assert quoted == SqlNames(parts, sees, listed);
    r := Joined(quoted);
    forall i | 0 <= i < |parts| ensures PrintsName(quoted[i], parts[i], sees, listed) {
      NamePrints(parts[i], sees, listed);
    }
    if SeesAscii(sees) && forall i | 0 <= i < |parts| :: Valid(parts[i]) {
      forall i | 0 <= i < |parts| ensures ReadsAsItself(quoted[i], sees) {
        NameShows(parts[i], sees, listed);
      }
      JoinedShows(quoted, sees);
    }
  }

  lemma NamePrints(name: Text, sees: char -> bool, listed: Text -> Text)
    ensures PrintsName(SqlName(name, sees, listed), name, sees, listed)
  {
    EscapedPrints(name, '"', sees, listed);
  }

  lemma EscapedPrints(name: Text, quote: char, sees: char -> bool, listed: Text -> Text)
    requires IsQuote(Rune(quote))
    ensures !ReadsAsItself(name, sees) ==> forall plain :: Prints(UnicodeEscaped(name, quote, sees, listed), plain, name, quote, sees, listed)
  {
    if Valid(name) {
      var body := SpelledAll(name, quote, sees);
      assert UnicodeEscaped(name, quote, sees, listed) == [Rune('U'), Rune('&'), Rune(quote)] + body + [Rune(quote)];
      if Storable(name) {
        EscapeRoundTrip(name, quote, sees);
      }
    }
  }

  /** A name of text shows as itself in either spelling. */
  lemma NameShows(name: Text, sees: char -> bool, listed: Text -> Text)
    requires Valid(name) && SeesAscii(sees)
    ensures ReadsAsItself(SqlName(name, sees, listed), sees)
  {
    assert Printable('"') && Printable('U') && Printable('&');
    if ReadsAsItself(name, sees) {
      DoubledShows(name, sees);
    } else {
      EscapeShows(name, '"', sees);
    }
  }

  lemma {:induction false} DoubledShows(s: Text, sees: char -> bool)
    requires ReadsAsItself(s, sees)
    ensures ReadsAsItself(Doubled(s, '"'), sees)
  {
    if s != [] {
      DoubledShows(s[1..], sees);
    }
  }

  lemma {:induction false} JoinedShows(pieces: seq<Text>, sees: char -> bool)
    requires SeesAscii(sees) && forall i | 0 <= i < |pieces| :: ReadsAsItself(pieces[i], sees)
    ensures ReadsAsItself(Joined(pieces), sees)
  {
    assert Printable('.');
    if |pieces| > 1 {
      JoinedShows(pieces[1..], sees);
    }
  }

  // ----- round trip -------------------------------------------------------------------

  function Power16(w: nat): nat {
    if w == 0 then 1 else 16 * Power16(w - 1)
  }

  lemma {:induction false} HexRoundTrip(n: nat, width: nat)
    requires n < Power16(width)
    ensures |Hex(n, width)| == width && HexValue(Hex(n, width)) == Some(n)
  {
    if width > 0 {
      HexRoundTrip(n / 16, width - 1);
      var h := Hex(n, width);
      assert h[..width - 1] == Hex(n / 16, width - 1);
      assert DigitValue(Rune(DigitOf(n % 16))) == Some(n % 16);
    }
  }

  lemma {:induction false} HexDigits(n: nat, width: nat)
    ensures |Hex(n, width)| == width
    ensures forall i | 0 <= i < width :: IsHexDigit(Hex(n, width)[i])
  {
    if width > 0 {
      HexDigits(n / 16, width - 1);
    }
  }

  predicate IsHexDigit(u: Unit) {
    u.Rune? && ('0' <= u.c <= '9' || 'a' <= u.c <= 'f')
  }

  lemma ReadsJoin(a: Text, b: Text, sees: char -> bool)
    requires ReadsAsItself(a, sees) && ReadsAsItself(b, sees)
    ensures ReadsAsItself(a + b, sees)
  {
  }

  lemma PlainRoundTrip(c: char, quote: char, sees: char -> bool, rest: Text)
    requires IsQuote(Rune(quote)) && (c == quote || c == '\\' || sees(c))
    ensures Unescape(Spelled(c, quote, sees) + rest, quote) == Cons(Some(Rune(c)), Unescape(rest, quote))
  {
    var s := Spelled(c, quote, sees);
    assert (s + rest)[|s|..] == rest;
  }

  lemma ShortRoundTrip(c: char, quote: char, rest: Text)
    requires IsQuote(Rune(quote)) && 0 < c as int <= 0xffff
    ensures Unescape([Rune('\\')] + Hex(c as int, 4) + rest, quote) == Cons(Some(Rune(c)), Unescape(rest, quote))
  {
    var whole := [Rune('\\')] + Hex(c as int, 4) + rest;
    assert Power16(4) == 0x1_0000 by {
      assert Power16(1) == 16 && Power16(2) == 256 && Power16(3) == 4096;
    }
    HexRoundTrip(c as int, 4);
    HexDigits(c as int, 4);
    assert whole[1..5] == Hex(c as int, 4);
    assert whole[1] == Hex(c as int, 4)[0] && whole[1] != Rune('+') && whole[1] != Rune('\\');
    assert whole[5..] == rest;
    assert Named(Some(c as int)) == Some(Rune(c));
  }

  lemma LongRoundTrip(c: char, quote: char, rest: Text)
    requires IsQuote(Rune(quote)) && c as int > 0xffff
    ensures Unescape([Rune('\\'), Rune('+')] + Hex(c as int, 6) + rest, quote) == Cons(Some(Rune(c)), Unescape(rest, quote))
  {
    var whole := [Rune('\\'), Rune('+')] + Hex(c as int, 6) + rest;
    assert Power16(6) == 0x100_0000 by {
      assert Power16(1) == 16 && Power16(2) == 256 && Power16(3) == 4096;
      assert Power16(4) == 0x1_0000 && Power16(5) == 0x10_0000;
    }
    HexRoundTrip(c as int, 6);
    assert whole[2..8] == Hex(c as int, 6);
    assert whole[8..] == rest;
    assert Named(Some(c as int)) == Some(Rune(c));
  }

  /** One character's spelling is read back as that character, whatever follows. */
  lemma SpelledRoundTrip(c: char, quote: char, sees: char -> bool, rest: Text)
    requires IsQuote(Rune(quote)) && c != '\0'
    ensures Unescape(Spelled(c, quote, sees) + rest, quote) == Cons(Some(Rune(c)), Unescape(rest, quote))
  {
    if c == quote || c == '\\' || sees(c) {
      PlainRoundTrip(c, quote, sees, rest);
    } else if c as int > 0xffff {
      LongRoundTrip(c, quote, rest);
    } else {
      ShortRoundTrip(c, quote, rest);
    }
  }

  /** What is printed between the quotes of the U& form reads back to the name. */
  lemma {:induction false} EscapeRoundTrip(s: Text, quote: char, sees: char -> bool)
    requires Storable(s) && IsQuote(Rune(quote))
    ensures Unescape(SpelledAll(s, quote, sees), quote) == Some(s)
  {
    if s != [] {
      EscapeRoundTrip(s[1..], quote, sees);
      SpelledRoundTrip(s[0].c, quote, sees, SpelledAll(s[1..], quote, sees));
      assert [s[0]] + s[1..] == s;
    }
  }

  /** Every character that is printed shows as itself. */
  lemma {:induction false} EscapeShows(s: Text, quote: char, sees: char -> bool)
    requires Valid(s) && IsQuote(Rune(quote)) && SeesAscii(sees)
    ensures ReadsAsItself(SpelledAll(s, quote, sees), sees)
  {
    if s != [] {
      EscapeShows(s[1..], quote, sees);
      SpelledShows(s[0].c, quote, sees);
      ReadsJoin(Spelled(s[0].c, quote, sees), SpelledAll(s[1..], quote, sees), sees);
    }
  }

  lemma SpelledShows(c: char, quote: char, sees: char -> bool)
    requires IsQuote(Rune(quote)) && SeesAscii(sees)
    ensures ReadsAsItself(Spelled(c, quote, sees), sees)
  {
    assert Printable('\\') && Printable('+') && Printable('"') && Printable('\'');
    assert forall d :: IsHexDigit(Rune(d)) ==> Printable(d);
    HexDigits(c as int, 4);
    HexDigits(c as int, 6);
  }

  /** The printed text ends at its own closing quote, and no sooner. */
  lemma {:induction false} EscapeScans(s: Text, quote: char, sees: char -> bool, rest: Text)
    requires Valid(s) && IsQuote(Rune(quote))
    requires rest != [] ==> rest[0] != Rune(quote)
    ensures
      var body := SpelledAll(s, quote, sees);
      var r := ScanQuoted(body + [Rune(quote)] + rest, quote);
      r.closed && r.used == |body|
  {
    if s == [] {
      assert [] + [Rune(quote)] + rest == [Rune(quote)] + rest;
    } else {
      EscapeScans(s[1..], quote, sees, rest);
      var head, body := Spelled(s[0].c, quote, sees), SpelledAll(s[1..], quote, sees);
      Associative(head, body, [Rune(quote)]);
      Associative(head, body + [Rune(quote)], rest);
      SpelledScans(s[0].c, quote, sees, body + [Rune(quote)] + rest);
    }
  }

  lemma SpelledScans(c: char, quote: char, sees: char -> bool, tail: Text)
    requires IsQuote(Rune(quote))
    ensures
      var head := Spelled(c, quote, sees);
      var r, r' := ScanQuoted(tail, quote), ScanQuoted(head + tail, quote);
      r'.closed == r.closed && r'.used == |head| + r.used
  {
    if c == quote {
      ScanPair(tail, quote);
    } else {
      SpelledWithoutQuote(c, quote, sees);
      ScanOver(Spelled(c, quote, sees), tail, quote);
    }
  }

  lemma SpelledWithoutQuote(c: char, quote: char, sees: char -> bool)
    requires c != quote && IsQuote(Rune(quote))
    ensures Rune(quote) !in Spelled(c, quote, sees)
  {
    HexDigits(c as int, 4);
    HexDigits(c as int, 6);
  }

  lemma ScanPair(tail: Text, quote: char)
    ensures
      var r, r' := ScanQuoted(tail, quote), ScanQuoted([Rune(quote), Rune(quote)] + tail, quote);
      r'.closed == r.closed && r'.used == 2 + r.used && r'.inner == [Rune(quote)] + r.inner
  {
    assert ([Rune(quote), Rune(quote)] + tail)[2..] == tail;
  }

  lemma {:induction false} ScanOver(head: Text, tail: Text, quote: char)
    requires Rune(quote) !in head
    ensures
      var r, r' := ScanQuoted(tail, quote), ScanQuoted(head + tail, quote);
      r'.closed == r.closed && r'.used == |head| + r.used && r'.inner == head + r.inner
  {
    if head == [] {
      assert head + tail == tail;
    } else {
      assert (head + tail)[1..] == head[1..] + tail;
      assert (head + tail)[0] == head[0];
      ScanOver(head[1..], tail, quote);
    }
  }

  lemma {:induction false} DoubledScans(s: Text, quote: char, rest: Text)
    requires rest != [] ==> rest[0] != Rune(quote)
    ensures ScanQuoted(Doubled(s, quote) + [Rune(quote)] + rest, quote) == Scan(s, |Doubled(s, quote)|, true)
  {
    if s == [] {
      ScanEnds(quote, rest);
      assert [] + [Rune(quote)] + rest == [Rune(quote)] + rest;
    } else {
      var tail := Doubled(s[1..], quote) + [Rune(quote)] + rest;
      DoubledScans(s[1..], quote, rest);
      DoubledHead(s, quote, rest);
      hide Doubled, ScanQuoted;
      if s[0] == Rune(quote) { ScanPair(tail, quote); } else { ScanOver([s[0]], tail, quote); }
      assert [s[0]] + s[1..] == s;
    }
  }

  lemma ScanEnds(quote: char, rest: Text)
    requires rest != [] ==> rest[0] != Rune(quote)
    ensures ScanQuoted([Rune(quote)] + rest, quote) == Scan([], 0, true)
  {
  }

  lemma DoubledHead(s: Text, quote: char, rest: Text)
    requires s != []
    ensures
      var head := if s[0] == Rune(quote) then [s[0], s[0]] else [s[0]];
      && |Doubled(s, quote)| == |head| + |Doubled(s[1..], quote)|
      && Doubled(s, quote) + [Rune(quote)] + rest == head + (Doubled(s[1..], quote) + [Rune(quote)] + rest)
  {
    var head := if s[0] == Rune(quote) then [s[0], s[0]] else [s[0]];
    var tail := Doubled(s[1..], quote);
    assert Doubled(s, quote) == head + tail;
    hide Doubled;
    JoinFour(head, tail, [Rune(quote)], rest);
  }

  lemma JoinFour<T>(a: seq<T>, b: seq<T>, c: seq<T>, d: seq<T>)
    ensures (a + b) + c + d == a + (b + c + d)
  {
  }

  /** A quoted token and what follows it, read. */
  lemma LexQuoted(s: Text, inner: Text, rest: Text)
    requires s != [] && IsQuote(s[0])
    requires
      var r := ScanQuoted(s[1..], s[0].c);
      r.closed && r.inner == inner && s[1..][r.used + 1..] == rest
    ensures Lex(s, false) == [Quoted(s[0].c, inner)] + Lex(rest, false)
  {
  }

  /** The U& form, wherever it stands, is read as the one name or string it was made of. */
  lemma {:induction false} EscapedIsRead(s: Text, quote: char, sees: char -> bool, listed: Text -> Text, rest: Text)
    requires Storable(s) && IsQuote(Rune(quote))
    requires rest != [] ==> rest[0] != Rune(quote)
    ensures Lex(UnicodeEscaped(s, quote, sees, listed) + rest, false) == [Quoted(quote, s)] + Lex(rest, false)
  {
    var body := SpelledAll(s, quote, sees);
    Framed([Rune('U'), Rune('&'), Rune(quote)], body, Rune(quote), rest);
    EscapeScans(s, quote, sees, rest);
    EscapeRoundTrip(s, quote, sees);
    LexEscaped(UnicodeEscaped(s, quote, sees, listed) + rest, s, body, rest);
  }

  /** A U& form and what follows it, read. */
  lemma LexEscaped(whole: Text, value: Text, body: Text, rest: Text)
    requires Prefixed(whole, false)
    requires
      var r := ScanQuoted(whole[3..], whole[2].c);
      && r.closed && whole[3..][..r.used] == body && whole[3..][r.used + 1..] == rest
      && Unescape(body, whole[2].c) == Some(value)
    ensures Lex(whole, false) == [Quoted(whole[2].c, value)] + Lex(rest, false)
  {
  }

  /** A name is read back as itself, in either spelling. */
  lemma {:induction false} NameIsRead(name: Text, sees: char -> bool, listed: Text -> Text, rest: Text)
    requires Storable(name)
    requires rest != [] ==> rest[0] != Rune('"')
    ensures Lex(SqlName(name, sees, listed) + rest, false) == [Quoted('"', name)] + Lex(rest, false)
  {
    if ReadsAsItself(name, sees) {
      Framed([Rune('"')], Doubled(name, '"'), Rune('"'), rest);
      DoubledScans(name, '"', rest);
      LexQuoted(SqlName(name, sees, listed) + rest, name, rest);
    } else {
      EscapedIsRead(name, '"', sees, listed, rest);
    }
  }

  /** What a qualified name says: its parts, with a dot between them. */
  function Qualified(parts: seq<Text>): seq<Token> {
    if parts == [] then []
    else if |parts| == 1 then [Quoted('"', parts[0])]
    else [Quoted('"', parts[0]), Raw(Rune('.'))] + Qualified(parts[1..])
  }

  /** A qualified name is read back as the parts it was made of, whatever they hold. */
  lemma {:induction false} IdentifierRoundTrip(parts: seq<Text>, sees: char -> bool, listed: Text -> Text)
    requires forall i | 0 <= i < |parts| :: Storable(parts[i])
    ensures Lex(Joined(SqlNames(parts, sees, listed)), false) == Qualified(parts)
  {
    if |parts| == 1 {
      NameIsRead(parts[0], sees, listed, []);
      assert SqlName(parts[0], sees, listed) + [] == SqlName(parts[0], sees, listed);
    } else if |parts| > 1 {
      IdentifierRoundTrip(parts[1..], sees, listed);
      JoinedNames(parts, sees, listed);
      var rest := Joined(SqlNames(parts[1..], sees, listed));
      NameIsRead(parts[0], sees, listed, [Rune('.')] + rest);
      LexDot(rest);
    }
  }

  lemma JoinedNames(parts: seq<Text>, sees: char -> bool, listed: Text -> Text)
    requires |parts| > 1
    ensures Joined(SqlNames(parts, sees, listed)) ==
      SqlName(parts[0], sees, listed) + ([Rune('.')] + Joined(SqlNames(parts[1..], sees, listed)))
  {
    var names := SqlNames(parts, sees, listed);
    assert names[1..] == SqlNames(parts[1..], sees, listed);
    Associative(names[0], [Rune('.')], Joined(names[1..]));
  }

  lemma LexDot(rest: Text)
    ensures Lex([Rune('.')] + rest, false) == [Raw(Rune('.'))] + Lex(rest, false)
  {
    DropAppend([Rune('.')], rest);
  }

  // ----- the rewriter -----------------------------------------------------------------

  /** What becomes of a closed quoted token: as it came, when what it holds shows as
      itself, and escaped otherwise. */
  function Piece(s: Text, r: Scan, sees: char -> bool, listed: Text -> Text): Text
    requires s != [] && IsQuote(s[0]) && r.used + 2 <= |s|
  {
    if ReadsAsItself(r.inner, sees) then s[..r.used + 2]
    else UnicodeEscaped(r.inner, s[0].c, sees, listed)
  }

  /** What the scan makes of a statement. */
  function Rewritten(s: Text, sees: char -> bool, listed: Text -> Text): Text {
    if s == [] then []
    else if !IsQuote(s[0]) then [s[0]] + Rewritten(s[1..], sees, listed)
    else
      var r := ScanQuoted(s[1..], s[0].c);
      if !r.closed then s
      else Piece(s, r, sees, listed) + Rewritten(s[r.used + 2..], sees, listed)
  }

  function WrittenOut(s: Text, sees: char -> bool, listed: Text -> Text): Text {
    if ReadsAsItself(s, sees) then s else Rewritten(s, sees, listed)
  }

  /** The scan is at i and has written `out`; after a quote that is not closed, i is past the
      end. */
  ghost predicate Writing(sql: Text, i: nat, out: Text, sees: char -> bool, listed: Text -> Text) {
    if i <= |sql| then out + Rewritten(sql[i..], sees, listed) == Rewritten(sql, sees, listed)
    else i == |sql| + 1 && out == Rewritten(sql, sees, listed)
  }

  /** The scan of writtenOut. */
  method WriteOut(sql: Text, sees: char -> bool, listed: Text -> Text) returns (out: Text)
    ensures out == WrittenOut(sql, sees, listed)
  {
    if ReadsAsItself(sql, sees) {
      return sql;
    }
    WritingBegins(sql, sees, listed);
    hide Writing, Rewritten, ScanQuoted, Piece, TokenText;
    out := [];
    var i := 0;
    while i < |sql|
      invariant 0 <= i <= |sql| + 1
      invariant Writing(sql, i, out, sees, listed)
    {
      if !IsQuote(sql[i]) {
        RawAt(sql, i, sees, listed, out);
        out := out + [sql[i]];
        i := i + 1;
      } else {
        TokenAt(sql, i, sees, listed, out);
        var piece, next := WriteToken(sql, i, sees, listed);
        out := out + piece;
        i := next;
      }
    }
    WritingEnds(sql, i, out, sees, listed);
  }

  lemma WritingBegins(sql: Text, sees: char -> bool, listed: Text -> Text)
    ensures Writing(sql, 0, [], sees, listed)
  {
    assert sql[0..] == sql;
  }

  lemma WritingEnds(sql: Text, i: nat, out: Text, sees: char -> bool, listed: Text -> Text)
    requires i >= |sql| && Writing(sql, i, out, sees, listed)
    ensures out == Rewritten(sql, sees, listed)
  {
    assert out + [] == out;
  }

  lemma RawAt(sql: Text, i: nat, sees: char -> bool, listed: Text -> Text, out: Text)
    requires i < |sql| && !IsQuote(sql[i]) && Writing(sql, i, out, sees, listed)
    ensures Writing(sql, i + 1, out + [sql[i]], sees, listed)
  {
    SliceOfSlice(sql, i, 1);
    Associative(out, [sql[i]], Rewritten(sql[i + 1..], sees, listed));
  }

  /** One quoted token, up to its closing quote or the end of the statement. */
  method WriteToken(sql: Text, i: nat, sees: char -> bool, listed: Text -> Text) returns (piece: Text, next: nat)
    requires i < |sql| && IsQuote(sql[i])
    ensures piece == TokenText(sql[i..], sees, listed)
    ensures next == i + TokenScan(sql[i..]).used + 2
    ensures
      var r := TokenScan(sql[i..]);
      if r.closed then next <= |sql| && Prints(piece, sql[i..next], r.inner, sql[i].c, sees, listed)
      else next > |sql| && piece == sql[i..]
  {
    hide ScanQuoted, UnicodeEscaped, Unescape, Storable;
    var inner, j := ScanInner(sql, i);
    SliceOfSlice(sql, i, 1);
    if j < |sql| {
      SliceOfSlice(sql, i, j + 1 - i);
    }
    if j >= |sql| || ReadsAsItself(inner, sees) {
      piece := sql[i..if j + 1 < |sql| then j + 1 else |sql|];
    } else {
      piece := WriteUnicodeEscaped(inner, sql[i].c, sees, listed);
      EscapedPrints(inner, sql[i].c, sees, listed);
    }
    next := j + 1;
  }

  /** The scan of the token a statement begins with. */
  function TokenScan(s: Text): Scan
    requires s != [] && IsQuote(s[0])
  {
    ScanQuoted(s[1..], s[0].c)
  }

  /** What becomes of it. */
  function TokenText(s: Text, sees: char -> bool, listed: Text -> Text): Text
    requires s != [] && IsQuote(s[0])
  {
    var r := TokenScan(s);
    if r.closed then Piece(s, r, sees, listed) else s
  }

  lemma TokenAt(sql: Text, i: nat, sees: char -> bool, listed: Text -> Text, out: Text)
    requires i < |sql| && IsQuote(sql[i]) && Writing(sql, i, out, sees, listed)
    ensures Writing(sql, i + TokenScan(sql[i..]).used + 2, out + TokenText(sql[i..], sees, listed), sees, listed)
  {
    hide Rewritten, ScanQuoted, Piece;
    var s := sql[i..];
    var r := TokenScan(s);
    if r.closed {
      RewrittenClosed(s, sees, listed);
      SliceOfSlice(sql, i, r.used + 2);
      Associative(out, TokenText(s, sees, listed), Rewritten(s[r.used + 2..], sees, listed));
    } else {
      RewrittenOpen(s, sees, listed);
    }
  }

  lemma RewrittenClosed(s: Text, sees: char -> bool, listed: Text -> Text)
    requires s != [] && IsQuote(s[0]) && ScanQuoted(s[1..], s[0].c).closed
    ensures
      var r := ScanQuoted(s[1..], s[0].c);
      Rewritten(s, sees, listed) == Piece(s, r, sees, listed) + Rewritten(s[r.used + 2..], sees, listed)
  {
    hide ScanQuoted, Piece;
  }

  lemma RewrittenOpen(s: Text, sees: char -> bool, listed: Text -> Text)
    requires s != [] && IsQuote(s[0]) && !ScanQuoted(s[1..], s[0].c).closed
    ensures Rewritten(s, sees, listed) == s
  {
  }

  /** The scan of what is left at j. */
  function ScanFrom(sql: Text, j: nat, quote: char): Scan
    requires j <= |sql|
  {
    ScanQuoted(sql[j..], quote)
  }

  /** The scan that began at `from` has read `inner` and is at j. */
  ghost predicate Scanning(sql: Text, from: nat, j: nat, quote: char, inner: Text)
    requires from <= j <= |sql|
  {
    var rest := ScanFrom(sql, j, quote);
    ScanFrom(sql, from, quote) == Scan(inner + rest.inner, j - from + rest.used, rest.closed)
  }

  predicate ClosesAt(sql: Text, j: nat, quote: char)
    requires j < |sql|
  {
    sql[j] == Rune(quote) && !(j + 1 < |sql| && sql[j + 1] == Rune(quote))
  }

  lemma ScanningEnds(sql: Text, from: nat, j: nat, quote: char, inner: Text)
    requires from <= j <= |sql| && Scanning(sql, from, j, quote, inner)
    requires j == |sql| || ClosesAt(sql, j, quote)
    ensures ScanFrom(sql, from, quote) == Scan(inner, j - from, j < |sql|)
  {
    assert inner + [] == inner;
  }

  lemma ScanningGoesOn(sql: Text, from: nat, j: nat, quote: char, inner: Text)
    requires from <= j < |sql| && Scanning(sql, from, j, quote, inner) && !ClosesAt(sql, j, quote)
    ensures
      var k := if sql[j] == Rune(quote) then 2 else 1;
      Scanning(sql, from, j + k, quote, inner + [sql[j]])
  {
    var k := if sql[j] == Rune(quote) then 2 else 1;
    SliceOfSlice(sql, j, k);
    Associative(inner, [sql[j]], ScanFrom(sql, j + k, quote).inner);
  }

  /** The inner loop: from the opening quote at i to the closing one, or past the end. */
  method ScanInner(sql: Text, i: nat) returns (inner: Text, j: nat)
    requires i < |sql| && IsQuote(sql[i])
    ensures
      var r := ScanFrom(sql, i + 1, sql[i].c);
      inner == r.inner && j == i + 1 + r.used && (r.closed <==> j < |sql|)
  {
    hide ScanQuoted;
    var quote := sql[i];
    j := i + 1;
    inner := [];
    assert Scanning(sql, i + 1, j, quote.c, inner) by {
      var r := ScanFrom(sql, j, quote.c);
      assert [] + r.inner == r.inner;
    }
    while j < |sql|
      invariant i + 1 <= j <= |sql|
      invariant Scanning(sql, i + 1, j, quote.c, inner)
    {
      if sql[j] == quote {
        if j + 1 < |sql| && sql[j + 1] == quote {
          ScanningGoesOn(sql, i + 1, j, quote.c, inner);
          inner := inner + [quote];
          j := j + 2;
          continue;
        }
        break;
      }
      ScanningGoesOn(sql, i + 1, j, quote.c, inner);
      inner := inner + [sql[j]];
      j := j + 1;
    }
    ScanningEnds(sql, i + 1, j, quote.c, inner);
  }

  // ----- meaning is preserved -----------------------------------------------------------

  predicate IsNewline(u: Unit) {
    u == Rune('\n') || u == Rune('\r')
  }

  predicate IsSpace(u: Unit) {
    u == Rune(' ') || u == Rune('\t') || u == Rune('\U{B}') || u == Rune('\U{C}') || IsNewline(u)
  }

  /** Whether a string that ends here goes on in the next quote: PostgreSQL reads strings
      apart by white space with a newline in it as one. */
  predicate GoesOn(s: Text, newline: bool) {
    s != [] && if IsSpace(s[0]) then GoesOn(s[1..], newline || IsNewline(s[0])) else newline && s[0] == Rune('\'')
  }

  /** A statement the rewriter can be handed: no quote follows a word character (so no
      E'' string), none stands behind a U& of its own, and no string goes on on another
      line. */
  predicate Handled(s: Text, word: bool) {
    if s == [] then true
    else if IsQuote(s[0]) then
      var r := ScanQuoted(s[1..], s[0].c);
      && !word
      && (r.closed ==>
            var rest := s[r.used + 2..];
            !(s[0] == Rune('\'') && GoesOn(rest, false)) && Handled(rest, false))
    else !Prefixed(s, word) && Handled(s[1..], IsWord(s[0]))
  }

  /** Every closed quote holds text an escape can spell. */
  predicate QuotesStorable(s: Text) {
    if s == [] then true
    else if !IsQuote(s[0]) then QuotesStorable(s[1..])
    else
      var r := ScanQuoted(s[1..], s[0].c);
      r.closed ==> Storable(r.inner) && QuotesStorable(s[r.used + 2..])
  }

  /** Every closed quote holds text that shows as itself. */
  predicate QuotesShow(s: Text, sees: char -> bool) {
    if s == [] then true
    else if !IsQuote(s[0]) then QuotesShow(s[1..], sees)
    else
      var r := ScanQuoted(s[1..], s[0].c);
      r.closed ==> ReadsAsItself(r.inner, sees) && QuotesShow(s[r.used + 2..], sees)
  }

  /** Of what is outside closed quotes `p` holds. */
  predicate OutsideQuotes(s: Text, p: Unit -> bool) {
    if s == [] then true
    else if !IsQuote(s[0]) then p(s[0]) && OutsideQuotes(s[1..], p)
    else
      var r := ScanQuoted(s[1..], s[0].c);
      if r.closed then OutsideQuotes(s[r.used + 2..], p)
      else forall i | 0 <= i < |s| :: p(s[i])
  }

  /** A rewritten statement begins with a quote only where the original does. */
  lemma RewrittenHead(s: Text, sees: char -> bool, listed: Text -> Text)
    requires QuotesStorable(s)
    ensures s == [] <==> Rewritten(s, sees, listed) == []
    ensures s != [] ==>
      var out := Rewritten(s, sees, listed);
      && (IsQuote(out[0]) ==> out[0] == s[0])
      && (!IsQuote(s[0]) ==> out[0] == s[0] && out[1..] == Rewritten(s[1..], sees, listed))
  {
  }

  /** Rewriting opens no U& form that was not there. */
  lemma RewrittenUnprefixed(s: Text, word: bool, sees: char -> bool, listed: Text -> Text)
    requires s != [] && !IsQuote(s[0]) && !Prefixed(s, word) && QuotesStorable(s)
    ensures !Prefixed(Rewritten(s, sees, listed), word)
  {
    RewrittenHead(s, sees, listed);
    RewrittenHead(s[1..], sees, listed);
    if |s| > 1 {
      if IsQuote(s[1]) {
        QuoteBecomes(s[1..], sees, listed);
      } else {
        RewrittenHead(s[2..], sees, listed);
      }
    }
  }

  lemma QuoteBecomes(s: Text, sees: char -> bool, listed: Text -> Text)
    requires s != [] && IsQuote(s[0]) && QuotesStorable(s)
    ensures Rewritten(s, sees, listed)[0] in [s[0], Rune('U')]
  {
  }

  /** Reading the rewritten statement gives what reading the original gives. */
  lemma {:induction false} RewritingKeepsTokens(s: Text, word: bool, sees: char -> bool, listed: Text -> Text)
    requires Handled(s, word) && QuotesStorable(s)
    ensures Lex(Rewritten(s, sees, listed), word) == Lex(s, word)
    decreases |s|
  {
    if s == [] {
    } else if !IsQuote(s[0]) {
      RewrittenUnprefixed(s, word, sees, listed);
      RewrittenHead(s, sees, listed);
      RewritingKeepsTokens(s[1..], IsWord(s[0]), sees, listed);
    } else if ScanQuoted(s[1..], s[0].c).closed {
      var rest := s[ScanQuoted(s[1..], s[0].c).used + 2..];
      RewritingKeepsTokens(rest, false, sees, listed);
      QuotedKeepsTokens(s, rest, sees, listed);
    }
  }

  /** A quoted token, given that what follows it is read the same. */
  lemma QuotedKeepsTokens(s: Text, rest: Text, sees: char -> bool, listed: Text -> Text)
    requires s != [] && IsQuote(s[0]) && ScanQuoted(s[1..], s[0].c).closed && QuotesStorable(s)
    requires rest == s[ScanQuoted(s[1..], s[0].c).used + 2..]
    requires Lex(Rewritten(rest, sees, listed), false) == Lex(rest, false)
    ensures Lex(Rewritten(s, sees, listed), false) == Lex(s, false)
  {
    var r := ScanQuoted(s[1..], s[0].c);
    var rest' := Rewritten(rest, sees, listed);
    assert s[1..][r.used + 1..] == rest;
    RewrittenHead(rest, sees, listed);
    RewrittenClosed(s, sees, listed);
    hide Rewritten, ScanQuoted;
    LexQuoted(s, r.inner, rest);
    if ReadsAsItself(r.inner, sees) {
      UntouchedIsRead(s, rest');
    } else {
      EscapedIsRead(r.inner, s[0].c, sees, listed, rest');
    }
  }

  /** A quoted token left as it was is read as it was. */
  lemma UntouchedIsRead(s: Text, rest': Text)
    requires s != [] && IsQuote(s[0]) && ScanQuoted(s[1..], s[0].c).closed
    requires rest' != [] ==> rest'[0] != s[0]
    ensures
      var r := ScanQuoted(s[1..], s[0].c);
      Lex(s[..r.used + 2] + rest', false) == [Quoted(s[0].c, r.inner)] + Lex(rest', false)
  {
    hide ScanQuoted, Lex;
    var r := ScanQuoted(s[1..], s[0].c);
    OtherRest(s, r.used + 2, rest');
    OtherRestScans(s, rest');
    LexQuoted(s[..r.used + 2] + rest', r.inner, rest');
  }

  /** A closed quote is scanned the same whatever follows it. */
  lemma OtherRestScans(s: Text, rest': Text)
    requires s != [] && IsQuote(s[0]) && ScanQuoted(s[1..], s[0].c).closed
    requires rest' != [] ==> rest'[0] != s[0]
    ensures
      var r := ScanQuoted(s[1..], s[0].c);
      ScanQuoted((s[..r.used + 2] + rest')[1..], s[0].c) == r
  {
    var r := ScanQuoted(s[1..], s[0].c);
    OtherRest(s, r.used + 2, rest');
    ScanLocal(s[1..], (s[..r.used + 2] + rest')[1..], s[0].c);
  }

  /** writtenOut preserves meaning: of every statement it can be handed whose closed
      quotes hold storable text, the result reads as the same raw characters,
      identifiers and strings. */
  lemma WrittenOutKeepsMeaning(s: Text, sees: char -> bool, listed: Text -> Text)
    requires Handled(s, false) && QuotesStorable(s)
    ensures Lex(WrittenOut(s, sees, listed), false) == Lex(s, false)
  {
    RewritingKeepsTokens(s, false, sees, listed);
  }

  /** It is the identity when every closed quote shows as itself, whatever is outside. */
  lemma {:induction false} WrittenOutIsIdentity(s: Text, sees: char -> bool, listed: Text -> Text)
    requires QuotesShow(s, sees)
    ensures WrittenOut(s, sees, listed) == Rewritten(s, sees, listed) == s
    decreases |s|
  {
    if s != [] {
      if !IsQuote(s[0]) {
        WrittenOutIsIdentity(s[1..], sees, listed);
        assert [s[0]] + s[1..] == s;
      } else {
        var r := ScanQuoted(s[1..], s[0].c);
        if r.closed {
          WrittenOutIsIdentity(s[r.used + 2..], sees, listed);
          RewrittenClosed(s, sees, listed);
          hide Rewritten, ScanQuoted;
          TakeDrop(s, r.used + 2);
        }
      }
    }
  }

  /** What is rewritten has only quotes that show as themselves. */
  lemma {:induction false} RewrittenQuotesShow(s: Text, sees: char -> bool, listed: Text -> Text)
    requires QuotesStorable(s) && SeesAscii(sees)
    ensures QuotesShow(Rewritten(s, sees, listed), sees)
    decreases |s|, 1
  {
    if s == [] {
    } else if !IsQuote(s[0]) {
      RewrittenHead(s, sees, listed);
      RewrittenQuotesShow(s[1..], sees, listed);
    } else {
      RewrittenTokenShows(s, sees, listed);
    }
  }

  lemma {:induction false} RewrittenTokenShows(s: Text, sees: char -> bool, listed: Text -> Text)
    requires QuotesStorable(s) && SeesAscii(sees) && s != [] && IsQuote(s[0])
    ensures QuotesShow(Rewritten(s, sees, listed), sees)
    decreases |s|, 0
  {
    var r := ScanQuoted(s[1..], s[0].c);
    if r.closed {
      assert QuotesStorable(s[r.used + 2..]) && Storable(r.inner);
      hide QuotesStorable, QuotesShow, ScanQuoted;
      var rest' := Rewritten(s[r.used + 2..], sees, listed);
      RewrittenClosed(s, sees, listed);
      RewrittenQuotesShow(s[r.used + 2..], sees, listed);
      RewrittenHead(s[r.used + 2..], sees, listed);
      if ReadsAsItself(r.inner, sees) {
        UntouchedShows(s, rest', sees);
      } else {
        EscapedQuotesShow(r.inner, s[0].c, sees, listed, rest');
      }
    }
  }

  lemma UntouchedShows(s: Text, rest': Text, sees: char -> bool)
    requires s != [] && IsQuote(s[0]) && QuotesShow(rest', sees)
    requires ScanQuoted(s[1..], s[0].c).closed && ReadsAsItself(ScanQuoted(s[1..], s[0].c).inner, sees)
    requires rest' != [] ==> rest'[0] != s[0]
    ensures QuotesShow(s[..ScanQuoted(s[1..], s[0].c).used + 2] + rest', sees)
  {
    hide ScanQuoted, QuotesShow;
    var r := ScanQuoted(s[1..], s[0].c);
    OtherRest(s, r.used + 2, rest');
    OtherRestScans(s, rest');
    var out := s[..r.used + 2] + rest';
    QuotesShowToken(out, out[1..], rest', sees);
  }

  lemma EscapedQuotesShow(s: Text, quote: char, sees: char -> bool, listed: Text -> Text, rest: Text)
    requires Valid(s) && IsQuote(Rune(quote)) && SeesAscii(sees) && QuotesShow(rest, sees)
    requires rest != [] ==> rest[0] != Rune(quote)
    ensures QuotesShow(UnicodeEscaped(s, quote, sees, listed) + rest, sees)
  {
    var tail := SpelledAll(s, quote, sees) + [Rune(quote)] + rest;
    var form := [Rune(quote)] + tail;
    BodyShows(s, quote, sees, rest);
    RawShow(Rune('&'), form, sees);
    RawShow(Rune('U'), [Rune('&')] + form, sees);
    Spread(Rune('U'), Rune('&'), Rune(quote), SpelledAll(s, quote, sees), rest);
  }

  lemma Spread<T>(a: T, b: T, c: T, body: seq<T>, rest: seq<T>)
    ensures ([a, b, c] + body + [c]) + rest == [a] + ([b] + ([c] + (body + [c] + rest)))
  {
  }

  lemma BodyShows(s: Text, quote: char, sees: char -> bool, rest: Text)
    requires Valid(s) && IsQuote(Rune(quote)) && SeesAscii(sees) && QuotesShow(rest, sees)
    requires rest != [] ==> rest[0] != Rune(quote)
    ensures QuotesShow([Rune(quote)] + (SpelledAll(s, quote, sees) + [Rune(quote)] + rest), sees)
  {
    var body := SpelledAll(s, quote, sees);
    var tail := body + [Rune(quote)] + rest;
    EscapeShows(s, quote, sees);
    EscapeScans(s, quote, sees, rest);
    Framed([], body, Rune(quote), rest);
    ScanAll(tail, quote, Shows(sees));
    assert All(SpelledAll(s, quote, sees), Shows(sees));
    DropAppend([Rune(quote)], tail);
    QuotesShowToken([Rune(quote)] + tail, tail, rest, sees);
  }

  lemma QuotesShowToken(s: Text, tail: Text, rest: Text, sees: char -> bool)
    requires s != [] && IsQuote(s[0]) && s[1..] == tail
    requires
      var r := ScanQuoted(tail, s[0].c);
      r.closed && ReadsAsItself(r.inner, sees) && tail[r.used + 1..] == rest
    requires QuotesShow(rest, sees)
    ensures QuotesShow(s, sees)
  {
    SliceOfSlice(s, 1, ScanQuoted(tail, s[0].c).used + 1);
  }

  lemma RawShow(u: Unit, s: Text, sees: char -> bool)
    requires !IsQuote(u) && QuotesShow(s, sees)
    ensures QuotesShow([u] + s, sees)
  {
    assert ([u] + s)[1..] == s;
  }

  /** It is idempotent when every closed quote holds storable text. */
  lemma WrittenOutIsIdempotent(s: Text, sees: char -> bool, listed: Text -> Text)
    requires QuotesStorable(s) && SeesAscii(sees)
    ensures
      var out := WrittenOut(s, sees, listed);
      WrittenOut(out, sees, listed) == out
  {
    if !ReadsAsItself(s, sees) {
      RewrittenQuotesShow(s, sees, listed);
      WrittenOutIsIdentity(Rewritten(s, sees, listed), sees, listed);
    }
  }

  /** When every odd character stands in a closed quote, none is left. */
  lemma {:induction false} WrittenOutShows(s: Text, sees: char -> bool, listed: Text -> Text)
    requires QuotesStorable(s) && SeesAscii(sees)
    requires OutsideQuotes(s, Shows(sees))
    ensures ReadsAsItself(Rewritten(s, sees, listed), sees)
    ensures ReadsAsItself(WrittenOut(s, sees, listed), sees)
    decreases |s|
  {
    if s == [] {
    } else if !IsQuote(s[0]) {
      WrittenOutShows(s[1..], sees, listed);
      ReadsJoin([s[0]], Rewritten(s[1..], sees, listed), sees);
    } else {
      var r := ScanQuoted(s[1..], s[0].c);
      if r.closed {
        WrittenOutShows(s[r.used + 2..], sees, listed);
        var rest' := Rewritten(s[r.used + 2..], sees, listed);
        if ReadsAsItself(r.inner, sees) {
          TokenShowsRaw(s, sees);
          ReadsJoin(s[..r.used + 2], rest', sees);
        } else {
          EscapedShows(r.inner, s[0].c, sees, listed);
          ReadsJoin(UnicodeEscaped(r.inner, s[0].c, sees, listed), rest', sees);
        }
      }
    }
  }

  lemma EscapedShows(s: Text, quote: char, sees: char -> bool, listed: Text -> Text)
    requires Valid(s) && IsQuote(Rune(quote)) && SeesAscii(sees)
    ensures ReadsAsItself(UnicodeEscaped(s, quote, sees, listed), sees)
  {
    assert Printable('U') && Printable('&') && Printable('"') && Printable('\'');
    EscapeShows(s, quote, sees);
    ReadsJoin([Rune('U'), Rune('&'), Rune(quote)], SpelledAll(s, quote, sees), sees);
  }

  lemma TokenShowsRaw(s: Text, sees: char -> bool)
    requires s != [] && IsQuote(s[0]) && SeesAscii(sees)
    requires ScanQuoted(s[1..], s[0].c).closed && ReadsAsItself(ScanQuoted(s[1..], s[0].c).inner, sees)
    ensures ReadsAsItself(s[..ScanQuoted(s[1..], s[0].c).used + 2], sees)
  {
    hide ScanQuoted;
    var r := ScanQuoted(s[1..], s[0].c);
    ScanAll(s[1..], s[0].c, Shows(sees));
    assert All(r.inner, Shows(sees));
    assert Printable('"') && Printable('\'');
    assert s[..r.used + 2] == [s[0]] + s[1..][..r.used] + [s[0]];
    ReadsJoin([s[0]], s[1..][..r.used], sees);
  }

  // ----- exactly when meaning is preserved --------------------------------------------

  /** Every closed quote is valid text. */
  predicate QuotesValid(s: Text) {
    if s == [] then true
    else if !IsQuote(s[0]) then QuotesValid(s[1..])
    else
      var r := ScanQuoted(s[1..], s[0].c);
      r.closed ==> Valid(r.inner) && QuotesValid(s[r.used + 2..])
  }

  /** What is rewritten is valid text when every stray byte stood in a closed quote. */
  lemma {:induction false} RewrittenIsValid(s: Text, sees: char -> bool, listed: Text -> Text)
    requires OutsideQuotes(s, IsRune) && forall x: Text :: Valid(listed(x))
    requires SeesAscii(sees)
    ensures Valid(Rewritten(s, sees, listed))
    decreases |s|
  {
    if s != [] {
      if !IsQuote(s[0]) {
        RewrittenIsValid(s[1..], sees, listed);
      } else {
        var r := ScanQuoted(s[1..], s[0].c);
        if r.closed {
          RewrittenIsValid(s[r.used + 2..], sees, listed);
          PieceIsValid(s, sees, listed);
        }
      }
    }
  }

  lemma PieceIsValid(s: Text, sees: char -> bool, listed: Text -> Text)
    requires s != [] && IsQuote(s[0]) && ScanQuoted(s[1..], s[0].c).closed
    requires SeesAscii(sees) && forall x: Text :: Valid(listed(x))
    ensures Valid(Piece(s, ScanQuoted(s[1..], s[0].c), sees, listed))
  {
    var r := ScanQuoted(s[1..], s[0].c);
    if ReadsAsItself(r.inner, sees) {
      TokenShowsRaw(s, sees);
    } else if Valid(r.inner) {
      EscapedShows(r.inner, s[0].c, sees, listed);
    }
  }

  /** A closed quote that is not valid text is read as one. */
  lemma {:induction false} InvalidQuoteIsRead(s: Text, word: bool)
    requires Handled(s, word) && !QuotesValid(s)
    ensures exists t :: t in Lex(s, word) && !ValidToken(t)
    decreases |s|
  {
    if !IsQuote(s[0]) {
      InvalidQuoteIsRead(s[1..], IsWord(s[0]));
      var t :| t in Lex(s[1..], IsWord(s[0])) && !ValidToken(t);
      assert t in Lex(s, word);
    } else {
      var r := ScanQuoted(s[1..], s[0].c);
      var rest := s[r.used + 2..];
      assert s[1..][r.used + 1..] == rest;
      LexQuoted(s, r.inner, rest);
      if Valid(r.inner) {
        InvalidQuoteIsRead(rest, false);
      }
      hide Lex, GoesOn, ScanQuoted;
      InvalidIsIn(Quoted(s[0].c, r.inner), Lex(rest, false));
    }
  }

  lemma InvalidIsIn(t: Token, rest: seq<Token>)
    requires !ValidToken(t) || exists u :: u in rest && !ValidToken(u)
    ensures exists u :: u in [t] + rest && !ValidToken(u)
  {
    if !ValidToken(t) {
      assert t in [t] + rest;
    } else {
      var u :| u in rest && !ValidToken(u);
      assert u in [t] + rest;
    }
  }

  lemma {:induction false} ValidQuotesAreStorable(s: Text)
    requires QuotesValid(s) && forall i | 0 <= i < |s| :: NotNul(s[i])
    ensures QuotesStorable(s)
    decreases |s|
  {
    if s != [] {
      if !IsQuote(s[0]) {
        ValidQuotesAreStorable(s[1..]);
      } else {
        var r := ScanQuoted(s[1..], s[0].c);
        if r.closed {
          ScanAll(s[1..], s[0].c, NotNul);
          assert forall i | 0 <= i < |r.inner| :: NotNul(r.inner[i]);
          ValidQuotesAreStorable(s[r.used + 2..]);
        }
      }
    }
  }

  /** Of statements with no byte outside a closed quote that is not part of a character,
      the meaning is kept exactly when no closed quote holds one either: what ListedName
      writes for such a quote is no longer the name. */
  lemma {:induction false} MeaningKeptExactlyWhen(s: Text, sees: char -> bool, listed: Text -> Text)
    requires Handled(s, false) && SeesAscii(sees)
    requires OutsideQuotes(s, IsRune) && forall i | 0 <= i < |s| :: NotNul(s[i])
    requires forall x: Text :: Valid(listed(x))
    ensures Lex(WrittenOut(s, sees, listed), false) == Lex(s, false) <==> QuotesValid(s)
  {
    if QuotesValid(s) {
      ValidQuotesAreStorable(s);
      WrittenOutKeepsMeaning(s, sees, listed);
    } else {
      InvalidQuoteIsRead(s, false);
      RewrittenIsValid(s, sees, listed);
      var out := WrittenOut(s, sees, listed);
      if Valid(out) {
        LexKeepsValid(out, false);
      }
      if ReadsAsItself(s, sees) {
        LexKeepsValid(s, false);
      }
    }
  }
}
