/** How an alarm is spelled among a member's errors (plugins/etcd/cluster.go): the member
    that raised it, in decimal, and the alarm's name. */
module EtcdAlarms {
  import opened Common
  import opened Decimals

  const MAX_UINT64 := 0xffff_ffff_ffff_ffff
  const BEFORE_ID := "memberID:"
  const BEFORE_NAME := " alarm:"

  /** An error read as an alarm, or as what it says. */
  datatype Spelled = Alarm(member: nat, name: string) | Plain(error: string)

  predicate IsDigit(c: char) {
    '0' <= c <= '9'
  }

  predicate IsWordChar(c: char) {
    IsDigit(c) || 'a' <= c <= 'z' || 'A' <= c <= 'Z' || c == '_'
  }

  predicate IsWord(s: string) {
    s != "" && forall i | 0 <= i < |s| :: IsWordChar(s[i])
  }

  /** How many digits a text begins with. */
  function Digits(s: string): (n: nat)
    ensures n <= |s| && AllDigits(s[..n])
  {
    if s != "" && IsDigit(s[0]) then
      var n := Digits(s[1..]);
      assert s[..n + 1] == [s[0]] + s[1..][..n];
      n + 1
    else 0
  }

  /** A number past the width of an id is the largest id. */
  function IdOf(digits: string): nat
    requires AllDigits(digits)
  {
    if ValueOf(digits) <= MAX_UINT64 then ValueOf(digits) else MAX_UINT64
  }

  /** The pattern, from the start of the error to its end. */
  function Read(e: string): Spelled {
    if BEFORE_ID <= e then
      var s := e[|BEFORE_ID|..];
      var n := Digits(s);
      if n > 0 && BEFORE_NAME <= s[n..] && IsWord(s[n..][|BEFORE_NAME|..])
      then Alarm(IdOf(s[..n]), s[n..][|BEFORE_NAME|..])
      else Plain(e)
    else Plain(e)
  }

  function Spell(digits: string, name: string): string {
    BEFORE_ID + (digits + (BEFORE_NAME + name))
  }

  lemma {:induction false} DigitsEnd(digits: string, rest: string)
    requires AllDigits(digits) && (rest != "" ==> !IsDigit(rest[0]))
    ensures Digits(digits + rest) == |digits|
  {
    if digits == "" {
      assert digits + rest == rest;
    } else {
      assert (digits + rest)[1..] == digits[1..] + rest;
      DigitsEnd(digits[1..], rest);
    }
  }

  /** An alarm is read exactly off an error that spells one, and is what was spelled. */
  lemma ReadExactlyWhen(e: string)
    ensures Read(e).Alarm? <==>
              exists digits: string, name: string ::
                digits != "" && AllDigits(digits) && IsWord(name) && e == Spell(digits, name)
    ensures Read(e).Plain? ==> Read(e) == Plain(e)
    ensures Read(e).Alarm? ==>
              exists digits: string, name: string ::
                && AllDigits(digits) && e == Spell(digits, name) && Read(e).name == name
                && Read(e).member == if ValueOf(digits) <= 0xffff_ffff_ffff_ffff then ValueOf(digits) else 0xffff_ffff_ffff_ffff
  {
    if Read(e).Alarm? {
      var s := e[|BEFORE_ID|..];
      var n := Digits(s);
      assert e == Spell(s[..n], s[n..][|BEFORE_NAME|..]);
    }
    if digits: string, name: string :| digits != "" && AllDigits(digits) && IsWord(name) && e == Spell(digits, name) {
      SpelledIsRead(digits, name);
    }
  }

  lemma SpelledIsRead(digits: string, name: string)
    requires digits != "" && AllDigits(digits) && IsWord(name)
    ensures Read(Spell(digits, name)) == Alarm(IdOf(digits), name)
  {
    var e, s := Spell(digits, name), digits + (BEFORE_NAME + name);
    DropAppend(BEFORE_ID, s);
    DropAppend(digits, BEFORE_NAME + name);
    DropAppend(BEFORE_NAME, name);
    DigitsEnd(digits, BEFORE_NAME + name);
    hide Digits, ValueOf, IdOf;
    assert e[|BEFORE_ID|..] == s;
  }

  /** An alarm as etcd spells it is read back: the member and the name. */
  lemma AlarmRoundTrip(member: nat, name: string)
    requires member <= MAX_UINT64 && IsWord(name)
    ensures Read(Spell(Decimal(member), name)) == Alarm(member, name)
  {
    DecimalIsRead(member);
    SpelledIsRead(Decimal(member), name);
  }
}
