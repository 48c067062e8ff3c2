/** The text of a statement, how PostgreSQL reads the quoted names and strings in it
    (sections 4.1.1 and 4.1.2.3 of the PostgreSQL documentation; sections 5.2 and 5.3
    of ISO/IEC 9075-2), and the characters that show as themselves. */
module SqlText {
  import opened Common

  /** One step of Go's range over a string: a code point, or a byte that is part of none. */
  datatype Unit = Rune(c: char) | Stray(byte: nat)

  type Text = seq<Unit>

  predicate Valid(s: Text) {
    forall i | 0 <= i < |s| :: s[i].Rune?
  }

  /** PostgreSQL holds no NUL in a name or a string. */
  predicate Storable(s: Text) {
    Valid(s) && forall i | 0 <= i < |s| :: s[i].c != '\0'
  }

  /** `sees` is which characters show as themselves inside quotes. */
  predicate ReadsAsItself(s: Text, sees: char -> bool) {
    forall i | 0 <= i < |s| :: s[i].Rune? && sees(s[i].c)
  }

  predicate Printable(c: char) {
    ' ' <= c <= '~'
  }

  ghost predicate SeesAscii(sees: char -> bool) {
    forall c :: Printable(c) ==> sees(c)
  }

  predicate IsQuote(u: Unit) {
    u == Rune('"') || u == Rune('\'')
  }

  /** What an identifier goes on with: a letter, a digit, `_`, `$`, or anything outside
      ASCII. */
  predicate IsWord(u: Unit) {
    match u
    case Stray(_) => true
    case Rune(c) => 'a' <= c <= 'z' || 'A' <= c <= 'Z' || '0' <= c <= '9' || c == '_' || c == '$' || c > '\U{7f}'
  }

  // ----- escapes --------------------------------------------------------------------

  function DigitOf(d: nat): char
    requires d < 16
  {
    "0123456789abcdef"[d]
  }

  function DigitValue(u: Unit): Option<nat> {
    match u
    case Stray(_) => None
    case Rune(c) =>
      if '0' <= c <= '9' then Some((c as int) - ('0' as int))
      else if 'a' <= c <= 'f' then Some((c as int) - ('a' as int) + 10)
      else if 'A' <= c <= 'F' then Some((c as int) - ('A' as int) + 10)
      else None
  }

  function HexValue(s: Text): Option<nat> {
    if s == [] then Some(0)
    else
      match (HexValue(s[..|s| - 1]), DigitValue(s[|s| - 1]))
      case (Some(high), Some(low)) => Some(16 * high + low)
      case _ => None
  }

  /** The character an escape names: a code point that is not a surrogate or NUL. */
  function Named(n: Option<nat>): Option<Unit> {
    if n.Some? && 0 < n.value < 0x11_0000 && !(0xD800 <= n.value < 0xE000)
    then Some(Rune(n.value as char)) else None
  }

  function Cons(u: Option<Unit>, rest: Option<Text>): Option<Text> {
    if u.Some? && rest.Some? then Some([u.value] + rest.value) else None
  }

  /** What stands between the quotes of a U& form names, or None where it names nothing. */
  function Unescape(body: Text, quote: char): Option<Text> {
    if body == [] then Some([])
    else if body[0] == Rune(quote) then
      if |body| > 1 && body[1] == Rune(quote) then Cons(Some(Rune(quote)), Unescape(body[2..], quote)) else None
    else if body[0] == Rune('\\') then
      if |body| > 1 && body[1] == Rune('\\') then Cons(Some(Rune('\\')), Unescape(body[2..], quote))
      else if |body| > 1 && body[1] == Rune('+') then
        if |body| >= 8 then Cons(Named(HexValue(body[2..8])), Unescape(body[8..], quote)) else None
      else if |body| >= 5 then Cons(Named(HexValue(body[1..5])), Unescape(body[5..], quote))
      else None
    else Cons(Some(body[0]), Unescape(body[1..], quote))
  }

  // ----- tokens ---------------------------------------------------------------------

  /** What follows an opening quote: what the quoted text holds, how many units of the
      statement that takes, and whether it is closed. */
  datatype Scan = Scan(inner: Text, used: nat, closed: bool)

  function ScanQuoted(s: Text, quote: char): (r: Scan)
    ensures r.used <= |s|
    ensures r.closed ==>
      r.used < |s| && s[r.used] == Rune(quote) && (r.used + 1 < |s| ==> s[r.used + 1] != Rune(quote))
    ensures !r.closed ==> r.used == |s|
  {
    if s == [] then Scan([], 0, false)
    else if s[0] == Rune(quote) then
      if |s| > 1 && s[1] == Rune(quote)
      then var r := ScanQuoted(s[2..], quote); Scan([s[0]] + r.inner, r.used + 2, r.closed)
      else Scan([], 0, true)
    else var r := ScanQuoted(s[1..], quote); Scan([s[0]] + r.inner, r.used + 1, r.closed)
  }

  /** A raw unit, an identifier or string, or the rest of a statement that is not read. */
  datatype Token = Raw(u: Unit) | Quoted(quote: char, value: Text) | Broken(text: Text)

  /** Whether a U& form opens here; `word` is whether an identifier is being read. */
  predicate Prefixed(s: Text, word: bool) {
    !word && |s| >= 3 && (s[0] == Rune('U') || s[0] == Rune('u')) && s[1] == Rune('&') && IsQuote(s[2])
  }

  /** A statement without E'' strings, dollar quotes and comments, as it is read. */
  function Lex(s: Text, word: bool): seq<Token>
    decreases |s|
  {
    if s == [] then []
    else if Prefixed(s, word) then
      var r := ScanQuoted(s[3..], s[2].c);
      if !r.closed then [Broken(s)]
      else
        match Unescape(s[3..][..r.used], s[2].c)
        case None => [Broken(s)]
        case Some(value) => [Quoted(s[2].c, value)] + Lex(s[3..][r.used + 1..], false)
    else if IsQuote(s[0]) then
      var r := ScanQuoted(s[1..], s[0].c);
      if !r.closed then [Broken(s)]
      else [Quoted(s[0].c, r.inner)] + Lex(s[1..][r.used + 1..], false)
    else [Raw(s[0])] + Lex(s[1..], IsWord(s[0]))
  }

  // ----- facts ----------------------------------------------------------------------

  /** Scanning looks no further than one unit past the closing quote. */
  lemma {:induction false} ScanLocal(s: Text, s': Text, quote: char)
    requires ScanQuoted(s, quote).closed
    requires
      var u := ScanQuoted(s, quote).used;
      u < |s'| && s'[..u + 1] == s[..u + 1] && (u + 1 < |s'| ==> s'[u + 1] != Rune(quote))
    ensures ScanQuoted(s', quote) == ScanQuoted(s, quote)
  {
    var u := ScanQuoted(s, quote).used;
    assert s'[0] == s'[..u + 1][0] == s[..u + 1][0] == s[0];
    if s[0] == Rune(quote) {
      if |s| > 1 && s[1] == Rune(quote) {
        assert s'[1] == s'[..u + 1][1] == s[..u + 1][1];
        assert s'[2..][..u - 1] == s'[..u + 1][2..] == s[2..][..u - 1];
        ScanLocal(s[2..], s'[2..], quote);
      }
    } else {
      assert s'[1..][..u] == s'[..u + 1][1..] == s[1..][..u];
      ScanLocal(s[1..], s'[1..], quote);
    }
  }

  predicate IsRune(u: Unit) {
    u.Rune?
  }

  predicate NotNul(u: Unit) {
    u != Rune('\0')
  }

  function Shows(sees: char -> bool): Unit -> bool {
    (u: Unit) => u.Rune? && sees(u.c)
  }

  /** What is scanned and what it was scanned from hold the same units. */
  lemma {:induction false} ScanAll(s: Text, quote: char, p: Unit -> bool)
    ensures
      var r := ScanQuoted(s, quote);
      All(s[..r.used], p) <==> All(r.inner, p)
  {
    if ScanQuoted(s, quote).inner != [] {
      var k := if s[0] == Rune(quote) then 2 else 1;
      ScanAll(s[k..], quote, p);
      ScanHead(s, quote, k);
      var r, r' := ScanQuoted(s, quote), ScanQuoted(s[k..], quote);
      hide ScanQuoted;
      Cut(s, k, r.used);
      AllJoin(s[..k], s[k..][..r'.used], p);
      AllJoin([s[0]], r'.inner, p);
    }
  }

  /** One step of a scan that goes on. */
  lemma ScanHead(s: Text, quote: char, k: nat)
    requires ScanQuoted(s, quote).inner != [] && k == if s[0] == Rune(quote) then 2 else 1
    ensures k <= |s|
    ensures
      var r, r' := ScanQuoted(s, quote), ScanQuoted(s[k..], quote);
      && r.used == k + r'.used && r.inner == [s[0]] + r'.inner
      && s[..k] == if k == 2 then [s[0], s[0]] else [s[0]]
  {
  }

  lemma {:induction false} UnescapeKeepsValid(body: Text, quote: char)
    requires Valid(body) && Unescape(body, quote).Some?
    ensures Valid(Unescape(body, quote).value)
  {
    if body != [] {
      var k := if body[0] == Rune(quote) then 2
               else if body[0] != Rune('\\') then 1
               else if body[1] == Rune('\\') then 2
               else if body[1] == Rune('+') then 8 else 5;
      UnescapeKeepsValid(body[k..], quote);
    }
  }

  predicate ValidToken(t: Token) {
    match t
    case Raw(u) => u.Rune?
    case Quoted(_, value) => Valid(value)
    case Broken(text) => Valid(text)
  }

  /** Nothing read from a valid text is invalid. */
  lemma {:induction false} LexKeepsValid(s: Text, word: bool)
    requires Valid(s)
    ensures forall t | t in Lex(s, word) :: ValidToken(t)
    decreases |s|
  {
    if s == [] {
    } else if Prefixed(s, word) {
      var r := ScanQuoted(s[3..], s[2].c);
      if r.closed && Unescape(s[3..][..r.used], s[2].c).Some? {
        UnescapeKeepsValid(s[3..][..r.used], s[2].c);
        LexKeepsValid(s[3..][r.used + 1..], false);
      }
    } else if IsQuote(s[0]) {
      var r := ScanQuoted(s[1..], s[0].c);
      if r.closed {
        ScanAll(s[1..], s[0].c, IsRune);
        LexKeepsValid(s[1..][r.used + 1..], false);
      }
    } else {
      LexKeepsValid(s[1..], IsWord(s[0]));
    }
  }
}
