// The countdown button's click handler: the list element is emptied, then one
// item is appended for each of n = 5, 4, 3, 2, 1, its text being the number.

module Countdown {

  /** The first value the loop appends. */
  const Start: nat := 5

  function DigitChar(d: nat): char
    requires d < 10
  {
    ('0' as int + d) as char
  }

  predicate IsDigit(c: char) { '0' <= c <= '9' }

  /** The decimal text of a non-negative integer, as Number.prototype.toString
      writes it: digits only, and no leading zero except in "0" itself. */
  function NumberText(n: nat): (t: string)
    ensures t != []
    ensures forall i :: 0 <= i < |t| ==> IsDigit(t[i])
    ensures |t| > 1 ==> t[0] != '0'
    decreases n
  {
    if n < 10 then [DigitChar(n)] else NumberText(n / 10) + [DigitChar(n % 10)]
  }

  /** The number a string of decimal digits denotes. */
  function DigitsValue(t: string): nat
    requires forall i :: 0 <= i < |t| ==> IsDigit(t[i])
  {
    if t == [] then 0
    else
      assert IsDigit(t[|t| - 1]);
      DigitsValue(t[..|t| - 1]) * 10 + (t[|t| - 1] as int - '0' as int)
  }

  /** Reading back the text of a number gives that number. */
  lemma {:induction false} NumberTextRoundTrip(n: nat)
    ensures DigitsValue(NumberText(n)) == n
  {
    var t := NumberText(n);
    if n >= 10 {
      NumberTextRoundTrip(n / 10);
      assert t[..|t| - 1] == NumberText(n / 10);
    }
  }

  /** Distinct numbers get distinct texts. */
  lemma NumberTextInjective(m: nat, n: nat)
    requires NumberText(m) == NumberText(n)
    ensures m == n
  {
    NumberTextRoundTrip(m);
    NumberTextRoundTrip(n);
  }

  /** The texts of hi, hi - 1, ..., down to but excluding lo. */
  function DescendingRun(hi: nat, lo: nat): (r: seq<string>)
    requires lo <= hi
    ensures |r| == hi - lo
    ensures forall k :: 0 <= k < |r| ==> r[k] == NumberText(hi - k)
    decreases hi - lo
  {
    if hi == lo then [] else DescendingRun(hi, lo + 1) + [NumberText(lo + 1)]
  }

  /** What the list holds after a click. */
  lemma FullRunIsFiveToOne()
    ensures DescendingRun(Start, 0) == ["5", "4", "3", "2", "1"]
  {
    var r := DescendingRun(Start, 0);
    assert r[0] == NumberText(5) == "5";
    assert r[1] == NumberText(4) == "4";
    assert r[2] == NumberText(3) == "3";
    assert r[3] == NumberText(2) == "2";
    assert r[4] == NumberText(1) == "1";
  }

  /** The <ul> whose items the handler rebuilds; each item is its text. */
  class CountdownList {
    var items: seq<string>

    constructor (initial: seq<string>)
      ensures items == initial
    {
      items := initial;
    }

    /** The click handler: clear the list, then append 5 down to 1. Whatever
        the list held before, it ends as exactly those five items. */
    method Click()
      modifies this
      ensures items == DescendingRun(Start, 0)
      ensures items == ["5", "4", "3", "2", "1"]
    {
      items := [];
      var n: nat := Start;
      while n > 0
        invariant n <= Start
        invariant items == DescendingRun(Start, n)
        decreases n
      {
        items := items + [NumberText(n)];
        n := n - 1;
      }
      FullRunIsFiveToOne();
    }
  }

  /** Two clicks in a row leave the same list as one. */
  method ClickTwice(list: CountdownList)
    modifies list
    ensures list.items == ["5", "4", "3", "2", "1"]
  {
    list.Click();
    var first := list.items;
    list.Click();
    assert list.items == first;
  }
}
