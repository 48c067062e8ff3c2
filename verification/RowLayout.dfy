/** Fitting a row's parts into a width, the part that must be said whatever the room, and
    the verdict made of the rows' clauses (plugins/kube/overviewrows.go,
    plugins/kube/overviewlist.go). Widths are counted in runes. */
module RowLayout {
  import opened Common
  import opened Decimals

  const ROW_ROOM := 42
  const LINE_ROOM := 65
  const WORDS_ROOM := 24
  const MAX_NAMESPACES := 30

  const SEP := " \U{B7} "
  const WHY_LEAD := " \U{2014} "

  const SENTENCE := "could not be read in "
  const SHORT := "unread in "
  const AFTER := " unread"

  // ----- words ------------------------------------------------------------------------------

  function Join(items: seq<string>): string {
    if items == [] then ""
    else if |items| == 1 then items[0]
    else Join(items[..|items| - 1]) + ", " + items[|items| - 1]
  }

  /** `inner` stands somewhere in `outer`, whole. */
  ghost predicate Says(outer: string, inner: string) {
    exists before: string, after: string :: outer == before + inner + after
  }

  lemma SaysMore(before: string, outer: string, after: string, inner: string)
    requires Says(outer, inner)
    ensures Says(before + outer + after, inner)
  {
    var a: string, b: string :| outer == a + inner + b;
    assert before + outer + after == (before + a) + inner + (b + after);
  }

  // ----- fitting a list ------------------------------------------------------------------------

  /** How the items left out are counted. */
  datatype More = AndMore | PlusCount | NoMore

  function Tail(more: More, left: nat): string {
    if left == 0 then ""
    else
      match more
      case AndMore => " and " + Decimal(left) + " more"
      case PlusCount => " +" + Decimal(left)
      case NoMore => ""
  }

  /** The first `k` items and the count of the rest. */
  function Fit(items: seq<string>, k: nat, more: More): string
    requires k <= |items|
  {
    Join(items[..k]) + Tail(more, |items| - k)
  }

  /** The most items, of the first `n`, that fit; 0 when not even one does. */
  function MostThatFit(items: seq<string>, n: nat, room: int, more: More): (k: nat)
    requires n <= |items|
    ensures k <= n
    ensures k > 0 ==> |Fit(items, k, more)| <= room
    ensures forall j | k < j <= n :: |Fit(items, j, more)| > room
  {
    if n == 0 || |Fit(items, n, more)| <= room then n
    else
      var k := MostThatFit(items, n - 1, room, more);
      assert forall j | k < j <= n :: j == n || |Fit(items, j, more)| > room;
      k
  }

  /** What a list says when it is given `room`. */
  function Fitted(items: seq<string>, room: int, more: More, must: bool): string {
    var k := MostThatFit(items, |items|, room, more);
    if k > 0 then Fit(items, k, more)
    else if must && items != [] then Fit(items, 1, more)
    else ""
  }

  /** `digits` is how a count is printed: in decimal, and read as that number again. */
  ghost predicate Counts(digits: string, n: nat) {
    AllDigits(digits) && ValueOf(digits) == n
  }

  /** `out` is the first k items with ", " between them, and behind them how many are left
      out, when some are and they are to be counted. */
  ghost predicate ListsFirst(out: string, items: seq<string>, k: nat, more: More) {
    && 1 <= k <= |items|
    && (if k == |items| || more == NoMore then out == Join(items[..k])
        else exists digits ::
          && Counts(digits, |items| - k)
          && out == Join(items[..k]) + (if more == AndMore then " and " + digits + " more" else " +" + digits))
  }

  lemma FitLists(items: seq<string>, k: nat, more: More)
    requires 1 <= k <= |items|
    ensures ListsFirst(Fit(items, k, more), items, k, more)
  {
    DecimalIsRead(|items| - k);
    assert Counts(Decimal(|items| - k), |items| - k);
    assert k == |items| || more == NoMore ==> Join(items[..k]) + "" == Join(items[..k]);
  }

  /** A list says its first items, as many as fit, and how many it left out; the first one
      alone when it must be said and nothing fits; and nothing else is ever said. */
  lemma FittedLists(items: seq<string>, room: int, more: More, must: bool) returns (k: nat)
    ensures k <= |items| && forall j | k < j <= |items| :: |Fit(items, j, more)| > room
    ensures k > 0 ==> ListsFirst(Fitted(items, room, more, must), items, k, more) && |Fitted(items, room, more, must)| <= room
    ensures k == 0 && must && items != [] ==> ListsFirst(Fitted(items, room, more, must), items, 1, more)
    ensures k == 0 && !(must && items != []) ==> Fitted(items, room, more, must) == ""
  {
    k := MostThatFit(items, |items|, room, more);
    if k > 0 {
      FitLists(items, k, more);
    } else if items != [] {
      FitLists(items, 1, more);
    }
  }

  /** Joined lists are joined by the same comma, so an item is what stands between two. */
  lemma {:induction false} JoinOfTwo(a: seq<string>, b: seq<string>)
    requires a != [] && b != []
    ensures Join(a + b) == Join(a) + ", " + Join(b)
    ensures |b| == 1 ==> Join(b) == b[0]
  {
    var all, n := a + b, |b| - 1;
    assert all[..|a| + n] == a + b[..n];
    if n == 0 {
      assert all[..|a|] == a;
    } else {
      JoinOfTwo(a, b[..n]);
    }
  }

  method FitList(items: seq<string>, room: int, more: More, must: bool) returns (out: string)
    ensures out == Fitted(items, room, more, must)
  {
    var k := |items|;
    while k >= 1
      invariant 0 <= k <= |items|
      invariant MostThatFit(items, |items|, room, more) == MostThatFit(items, k, room, more)
    {
      var s := Join(items[..k]) + Tail(more, |items| - k);
      if |s| <= room {
        return s;
      }
      k := k - 1;
    }
    if must && |items| > 0 {
      assert items[..1] == [items[0]];
      return items[0] + Tail(more, |items| - 1);
    }
    return "";
  }

  /** A list that need not be said fits its room or says nothing; one that must be said
      always begins with its first item, and is over only when no prefix fits. */
  lemma FittedKeeps(items: seq<string>, room: int, more: More, must: bool)
    ensures !must ==> Fitted(items, room, more, must) == "" || |Fitted(items, room, more, must)| <= room
    ensures must && items != [] ==> items[0] <= Fitted(items, room, more, must)
    ensures |Fitted(items, room, more, must)| > room && Fitted(items, room, more, must) != "" ==>
              forall k | 1 <= k <= |items| :: |Fit(items, k, more)| > room
  {
    var k := MostThatFit(items, |items|, room, more);
    if items != [] {
      JoinStarts(items[..if k > 0 then k else 1]);
    }
  }

  lemma {:induction false} JoinStarts(items: seq<string>)
    requires items != []
    ensures items[0] <= Join(items)
  {
    if |items| > 1 {
      JoinStarts(items[..|items| - 1]);
    }
  }

  // ----- a row of parts ---------------------------------------------------------------------------

  /** A part is given the room that is left, which may be none or less. */
  type Part = int -> string

  function Laid(width: int, out: string, parts: seq<Part>): string
    decreases |parts|
  {
    if parts == [] then out
    else
      var s := parts[0](width - |out| - |SEP|);
      Laid(width, if s == "" then out else out + SEP + s, parts[1..])
  }

  /** What a row is after a part: the part behind a separator, unless it says nothing in the
      room that the row so far leaves it. */
  predicate Lays(width: int, before: string, part: Part, after: string) {
    var s := part(width - |before| - 3);
    after == if s == "" then before else before + " \U{B7} " + s
  }

  /** The row grows from its first part by one part at a time, in their order. */
  ghost predicate Grows(width: int, first: string, parts: seq<Part>, out: string) {
    exists rows: seq<string> ::
      && |rows| == |parts| + 1 && rows[0] == first && rows[|parts|] == out
      && forall i | 0 <= i < |parts| :: Lays(width, rows[i], parts[i], rows[i + 1])
  }

  lemma {:induction false} RowGrows(width: int, first: string, parts: seq<Part>) returns (rows: seq<string>)
    ensures |rows| == |parts| + 1 && rows[0] == first && rows[|parts|] == Laid(width, first, parts)
    ensures forall i | 0 <= i < |parts| :: Lays(width, rows[i], parts[i], rows[i + 1])
    decreases |parts|
  {
    if parts == [] {
      rows := [first];
    } else {
      var s := parts[0](width - |first| - |SEP|);
      var next := if s == "" then first else first + SEP + s;
      assert first + " \U{B7} " + s == first + SEP + s;
      rows := RowGrows(width, next, parts[1..]);
      rows := [first] + rows;
    }
  }

  method RowIn(width: int, first: string, parts: seq<Part>) returns (out: string)
    ensures out == Laid(width, first, parts)
    ensures Grows(width, first, parts, out)
  {
    ghost var rows := RowGrows(width, first, parts);
    out := first;
    for i := 0 to |parts|
      invariant Laid(width, out, parts[i..]) == Laid(width, first, parts)
    {
      assert parts[i..][0] == parts[i] && parts[i..][1..] == parts[i + 1..];
      var s := parts[i](width - |out| - |SEP|);
      if s != "" {
        out := out + SEP + s;
      }
    }
  }

  /** A part that says nothing when it cannot say it in the room. */
  ghost predicate Modest(part: Part) {
    forall room :: part(room) == "" || |part(room)| <= room
  }

  function Within(s: string): Part {
    (room: int) => if s == "" || |s| > room then "" else s
  }

  function ListPart(items: seq<string>, more: More): Part {
    (room: int) => Fitted(items, room, more, false)
  }

  lemma {:induction false} PartsAreModest(s: string, items: seq<string>, more: More)
    ensures Modest(Within(s)) && Modest(ListPart(items, more))
    ensures forall room | |s| <= room :: Within(s)(room) == s
    ensures forall room :: ListPart(items, more)(room) != "" ==>
              exists k :: 1 <= k <= |items| && ListsFirst(ListPart(items, more)(room), items, k, more)
  {
    forall room ensures ListPart(items, more)(room) == "" || |ListPart(items, more)(room)| <= room {
      FittedKeeps(items, room, more, false);
    }
    forall room | ListPart(items, more)(room) != ""
      ensures exists k :: 1 <= k <= |items| && ListsFirst(ListPart(items, more)(room), items, k, more)
    {
      var k := FittedLists(items, room, more, false);
      assert 1 <= k <= |items| && ListsFirst(ListPart(items, more)(room), items, k, more);
    }
  }

  /** A row of such parts is no wider than its width or than its first part, which is
      always there, at the front. */
  lemma {:induction false} RowFits(width: int, first: string, parts: seq<Part>)
    ensures first <= Laid(width, first, parts)
    ensures (forall i | 0 <= i < |parts| :: Modest(parts[i])) ==>
              |Laid(width, first, parts)| <= width || Laid(width, first, parts) == first
    decreases |parts|
  {
    if parts != [] {
      var s := parts[0](width - |first| - |SEP|);
      RowFits(width, if s == "" then first else first + SEP + s, parts[1..]);
    }
  }

  // ----- the namespaces that could not be read -----------------------------------------------------

  function Plural(n: nat): string {
    if n == 1 then "namespace" else "namespaces"
  }

  function WhereWords(names: seq<string>): string {
    if |Join(names)| <= WORDS_ROOM then Join(names) else Decimal(|names|) + " " + Plural(|names|)
  }

  function MissPhrase(names: seq<string>, room: int): string {
    var where := WhereWords(names);
    if |SENTENCE + where| <= room then SENTENCE + where
    else if |SHORT + where| <= room then SHORT + where
    else where + AFTER
  }

  function MissWidth(names: seq<string>): nat {
    if names == [] then 0 else |SEP| + |MissPhrase(names, LINE_ROOM)|
  }

  /** No clip of a text is wider than it was told, if it was told at least one column. */
  ghost predicate Clips(clip: (string, int) -> string) {
    forall s, n | n >= 1 :: |clip(s, n)| <= n
  }

  method RowWith(miss: seq<string>, why: string, first: string, rest: seq<Part>, clip: (string, int) -> string)
    returns (out: string)
    requires Clips(clip) && |miss| <= MAX_NAMESPACES
    ensures miss == [] ==> out == Laid(ROW_ROOM, first, rest)
    ensures miss != [] ==> |out| <= LINE_ROOM && Says(out, WhereWords(miss))
    ensures miss != [] ==>
              exists said :: SaysMiss(said, Laid(ROW_ROOM - MissWidth(miss), first, rest), miss) && out == Reasoned(said, why, clip)
  {
    hide WhereWords, Says, Laid, Grows, Clips, MissWidth;
    if |miss| == 0 {
      out := RowIn(ROW_ROOM, first, rest);
      return;
    }
    var row := RowIn(ROW_ROOM - MissWidth(miss), first, rest);
    out := WithMiss(row, miss, clip);
    out := WithReason(out, why, clip, WhereWords(miss));
  }

  /** A row with the namespaces said after it: in the sentence when that fits, and the row
      itself cut only when not even the shortest words fit behind it. */
  ghost predicate SaysMiss(said: string, row: string, miss: seq<string>) {
    && |said| <= LINE_ROOM && Says(said, WhereWords(miss))
    && (|row| + MissWidth(miss) <= LINE_ROOM ==> said == row + SEP + (SENTENCE + WhereWords(miss)))
    && (|row| + |SEP| + |WhereWords(miss) + AFTER| <= LINE_ROOM ==> row + SEP <= said)
  }

  /** And the first reason behind that, where there is room for it. */
  function Reasoned(row: string, why: string, clip: (string, int) -> string): string {
    var room := LINE_ROOM - |row| - |WHY_LEAD|;
    if room >= 16 then row + (WHY_LEAD + clip(why, room)) else row
  }

  /** The namespaces said after a row, which is cut if that is what it takes. */
  method WithMiss(row: string, miss: seq<string>, clip: (string, int) -> string) returns (out: string)
    requires Clips(clip) && 0 < |miss| <= MAX_NAMESPACES
    ensures SaysMiss(out, row, miss)
  {
    WhereIsShort(miss);
    hide WhereWords, Says, Clips, MissWidth;
    out := row;
    var room := LINE_ROOM - |out| - |SEP|;
    var phrase := MissPhrase(miss, room);
    PhraseSays(miss, room);
    hide MissPhrase;
    var over := |out| + |SEP| + |phrase| - LINE_ROOM;
    if over > 0 {
      ClipFits(clip, out, |out| - over);
      out := clip(out, |out| - over);
    }
    SaysBehind(out, phrase, WhereWords(miss));
    out := out + SEP + phrase;
  }

  lemma SaysBehind(row: string, phrase: string, where: string)
    requires Says(phrase, where)
    ensures Says(row + SEP + phrase, where)
  {
    SaysMore(row + SEP, phrase, "", where);
    assert row + SEP + phrase + "" == row + SEP + phrase;
  }

  method WithReason(row: string, why: string, clip: (string, int) -> string, ghost where: string) returns (out: string)
    requires Clips(clip) && |row| <= LINE_ROOM && Says(row, where)
    ensures |out| <= LINE_ROOM && Says(out, where) && out == Reasoned(row, why, clip)
  {
    out := row;
    var room := LINE_ROOM - |out| - |WHY_LEAD|;
    if room >= 16 {
      var reason := clip(why, room);
      SaysMore("", row, WHY_LEAD + reason, where);
      out := "" + row + (WHY_LEAD + reason);
    }
  }

  lemma ClipFits(clip: (string, int) -> string, s: string, n: int)
    requires Clips(clip) && n >= 1
    ensures |clip(s, n)| <= n
  {
  }

  method UnreadKind(names: nat, miss: seq<string>, why: string, sentence: string, clip: (string, int) -> string)
    returns (value: string)
    requires Clips(clip) && 0 < |miss| <= MAX_NAMESPACES
    ensures |value| <= LINE_ROOM
    ensures names > 1 ==> Says(value, WhereWords(miss)) && SENTENCE + WhereWords(miss) + WHY_LEAD <= value
    ensures names <= 1 ==> value == clip(sentence, LINE_ROOM)
  {
    if names <= 1 {
      return clip(sentence, LINE_ROOM);
    }
    WhereIsShort(miss);
    var where := WhereWords(miss);
    var lead := SENTENCE;
    var room := LINE_ROOM - |lead + where| - |WHY_LEAD|;
    value := lead + where + WHY_LEAD + clip(why, room);
    assert value == lead + where + (WHY_LEAD + clip(why, room));
  }

  /** The namespaces are named when that is short, and counted when it is not. */
  lemma WhereSays(names: seq<string>)
    ensures |Join(names)| <= WORDS_ROOM ==> WhereWords(names) == Join(names)
    ensures |Join(names)| > WORDS_ROOM ==>
              exists digits ::
                Counts(digits, |names|) && WhereWords(names) == digits + (if |names| == 1 then " namespace" else " namespaces")
  {
    DecimalIsRead(|names|);
    hide Decimal, ValueOf, Join;
    assert Counts(Decimal(|names|), |names|);
    Associative(Decimal(|names|), " ", Plural(|names|));
  }

  lemma WhereIsShort(names: seq<string>)
    requires |names| <= MAX_NAMESPACES
    ensures |WhereWords(names)| <= WORDS_ROOM
    ensures names != [] ==> MissWidth(names) == |SEP| + |SENTENCE| + |WhereWords(names)|
  {
    DecimalIsShort(|names|);
  }

  lemma DecimalIsShort(n: nat)
    requires n < 100
    ensures |Decimal(n)| <= 2
  {
  }

  lemma PhraseSays(names: seq<string>, room: int)
    ensures Says(MissPhrase(names, room), WhereWords(names))
    ensures |MissPhrase(names, room)| <= room || |MissPhrase(names, room)| == |WhereWords(names)| + |AFTER|
    ensures |SENTENCE + WhereWords(names)| <= room ==> MissPhrase(names, room) == SENTENCE + WhereWords(names)
    ensures
      var phrases := {SENTENCE + WhereWords(names), SHORT + WhereWords(names), WhereWords(names) + AFTER};
      && MissPhrase(names, room) in phrases
      && forall p | p in phrases && |p| <= room :: |p| <= |MissPhrase(names, room)| <= room
  {
    var where := WhereWords(names);
    assert SENTENCE + where + "" == SENTENCE + where;
    assert SHORT + where + "" == SHORT + where;
    assert "" + where + AFTER == where + AFTER;
  }
}
