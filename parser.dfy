/**
 * The record parser `placeOrder` of src/main/kotlin/Main.kt:22-56, with the
 * engine call replaced by the order it would be given.
 */
module Parser {
  import opened Wrappers
  import opened Orders

  /** `line.split(',')`: the fields between commas, empty ones included. */
  function Split(s: string): (fields: seq<string>)
    ensures |fields| >= 1
    decreases |s|
  {
    if |s| == 0 then [""]
    else
      var rest := Split(s[1..]);
      if s[0] == ',' then [""] + rest else [[s[0]] + rest[0]] + rest[1..]
  }

  /** The fields joined back with commas. */
  function Join(fields: seq<string>): string
    requires |fields| >= 1
    decreases |fields|
  {
    if |fields| == 1 then fields[0] else fields[0] + "," + Join(fields[1..])
  }

  function Commas(s: string): nat
    decreases |s|
  {
    if |s| == 0 then 0 else (if s[0] == ',' then 1 else 0) + Commas(s[1..])
  }

  /** Splitting yields one more field than there are commas. */
  lemma {:induction false} SplitCountsCommas(s: string)
    ensures |Split(s)| == Commas(s) + 1
    decreases |s|
  {
    if |s| > 0 {
      SplitCountsCommas(s[1..]);
    }
  }

  /** Joining the fields of a split gives the line back. */
  lemma {:induction false} JoinSplit(s: string)
    ensures Join(Split(s)) == s
    decreases |s|
  {
    if |s| > 0 {
      var rest := Split(s[1..]);
      JoinSplit(s[1..]);
      if s[0] != ',' && |rest| > 1 {
        assert Join(rest) == rest[0] + "," + Join(rest[1..]);
        assert [[s[0]] + rest[0]] + rest[1..] == [[s[0]] + rest[0]] + rest[1..];
        assert ([[s[0]] + rest[0]] + rest[1..])[1..] == rest[1..];
      }
      assert s == [s[0]] + s[1..];
    }
  }

  /** A comma-free prefix joins the first field of what follows. */
  lemma {:induction false} SplitCommaFree(f: string, s: string)
    requires ',' !in f
    ensures Split(f + s) == [f + Split(s)[0]] + Split(s)[1..]
    decreases |f|
  {
    if |f| == 0 {
      assert f + s == s;
      assert f + Split(s)[0] == Split(s)[0];
      assert Split(s) == [f + Split(s)[0]] + Split(s)[1..];
    } else {
      assert (f + s)[1..] == f[1..] + s;
      assert f[0] in f;
      SplitCommaFree(f[1..], s);
      var rest := Split(f[1..] + s);
      assert rest == [f[1..] + Split(s)[0]] + Split(s)[1..];
      assert Split(f + s) == [[f[0]] + rest[0]] + rest[1..];
      assert [f[0]] + (f[1..] + Split(s)[0]) == f + Split(s)[0];
    }
  }

  /** Splitting comma-free fields joined with commas gives the fields back. */
  lemma {:induction false} SplitJoin(fields: seq<string>)
    requires |fields| >= 1
    requires forall i :: 0 <= i < |fields| ==> ',' !in fields[i]
    ensures Split(Join(fields)) == fields
    decreases |fields|
  {
    if |fields| == 1 {
      SplitCommaFree(fields[0], "");
      assert fields[0] + "" == fields[0];
      assert Split("") == [""];
      assert fields[0] + "" == fields[0];
      assert Join(fields) == fields[0];
    } else {
      SplitJoin(fields[1..]);
      var tail := "," + Join(fields[1..]);
      assert fields[0] + "," + Join(fields[1..]) == fields[0] + tail;
      SplitCommaFree(fields[0], tail);
      assert tail[1..] == Join(fields[1..]);
      assert Split(tail) == [""] + fields[1..];
      assert fields[0] + Split(tail)[0] == fields[0];
      assert Split(tail)[1..] == fields[1..];
      assert fields == [fields[0]] + fields[1..];
    }
  }

  predicate IsDigit(c: char) {
    '0' <= c <= '9'
  }

  predicate AllDigits(s: string) {
    forall i :: 0 <= i < |s| ==> IsDigit(s[i])
  }

  /** The decimal value of a string of digits. */
  function DigitsValue(s: string): nat
    requires AllDigits(s)
    decreases |s|
  {
    if |s| == 0 then 0 else DigitsValue(s[..|s| - 1]) * 10 + (s[|s| - 1] as int - '0' as int)
  }

  /**
   * `String.toIntOrNull()`: an optional `+` or `-`, then at least one decimal
   * digit, and a value within the 32-bit range; anything else is `null`.
   */
  function ParseInt(s: string): (r: Option<int>)
    ensures r.Some? ==> MinInt <= r.value <= MaxInt
    ensures r.Some? ==> |s| > 0 && (IsDigit(s[0]) || s[0] == '-' || s[0] == '+')
  {
    if |s| == 0 then None
    else if s[0] == '-' || s[0] == '+' then
      var digits := s[1..];
      if |digits| == 0 || !AllDigits(digits) then None
      else
        var v: int := if s[0] == '-' then -(DigitsValue(digits) as int) else DigitsValue(digits);
        if MinInt <= v <= MaxInt then Some(v) else None
    else if AllDigits(s) && DigitsValue(s) <= MaxInt then Some(DigitsValue(s))
    else None
  }

  /** The decimal digits of a natural number, most significant first. */
  function NatDigits(n: nat): (s: string)
    decreases n
  {
    if n < 10 then [('0' as int + n) as char] else NatDigits(n / 10) + [('0' as int + n % 10) as char]
  }

  /** An integer written in decimal, with `-` when negative. */
  function FormatInt(n: int): string {
    if n < 0 then "-" + NatDigits(-n) else NatDigits(n)
  }

  lemma {:induction false} NatDigitsValue(n: nat)
    ensures |NatDigits(n)| > 0 && AllDigits(NatDigits(n)) && DigitsValue(NatDigits(n)) == n
    decreases n
  {
    if n >= 10 {
      NatDigitsValue(n / 10);
      var s := NatDigits(n);
      assert s[..|s| - 1] == NatDigits(n / 10);
    }
  }

  /** `toIntOrNull` reads back every 32-bit integer written in decimal. */
  lemma ParseFormatInt(n: int)
    requires MinInt <= n <= MaxInt
    ensures ParseInt(FormatInt(n)) == Some(n)
  {
    var s := FormatInt(n);
    if n < 0 {
      NatDigitsValue(-n);
      assert s[0] == '-' && s[1..] == NatDigits(-n);
    } else {
      NatDigitsValue(n);
      assert IsDigit(s[0]);
    }
  }

  lemma CommaFreeInt(n: int)
    ensures ',' !in FormatInt(n)
  {
    var m: nat := if n < 0 then -n else n;
    NatDigitsValue(m);
    var s := FormatInt(n);
    assert forall i :: 0 <= i < |s| ==> s[i] != ',' by {
      forall i | 0 <= i < |s|
        ensures s[i] != ','
      {
        if n < 0 && i > 0 {
          assert s[i] == NatDigits(m)[i - 1];
        }
      }
    }
  }

  /** Why a line is rejected, in the order the checks are made. */
  datatype ParseError =
    | FieldCount(count: nat)
    | BadPrice(field: string)
    | BadQuantity(field: string)
    | BadSide(side: string)

  /**
   * `placeOrder` up to the engine call: "id,side,price,quantity" becomes a buy
   * or sell order, or the first error found: field count, then price, then
   * quantity, then side. The id is taken verbatim and the numbers carry no
   * range check here.
   */
  function ParseOrder(line: string): (r: Result<Order, ParseError>)
    ensures var f := Split(line);
      r.Success? <==> |f| == 4 && ParseInt(f[2]).Some? && ParseInt(f[3]).Some? && (f[1] == "B" || f[1] == "S")
    ensures var f := Split(line);
      (r == Failure(FieldCount(|f|)) <==> |f| != 4) &&
      (|f| == 4 ==>
        (r == Failure(BadPrice(f[2])) <==> ParseInt(f[2]).None?) &&
        (r == Failure(BadQuantity(f[3])) <==> ParseInt(f[2]).Some? && ParseInt(f[3]).None?) &&
        (r == Failure(BadSide(f[1])) <==>
          ParseInt(f[2]).Some? && ParseInt(f[3]).Some? && f[1] != "B" && f[1] != "S"))
    ensures r.Success? ==> var f := Split(line);
      |f| == 4 && r.value.id == f[0] &&
      Some(r.value.limitPrice) == ParseInt(f[2]) && Some(r.value.quantity) == ParseInt(f[3]) &&
      (r.value.BuyOrder? <==> f[1] == "B") && (r.value.SellOrder? <==> f[1] == "S")
  {
    var inputs := Split(line);
    if |inputs| != 4 then Failure(FieldCount(|inputs|))
    else
      match ParseInt(inputs[2])
      case None => Failure(BadPrice(inputs[2]))
      case Some(price) =>
        match ParseInt(inputs[3])
        case None => Failure(BadQuantity(inputs[3]))
        case Some(quantity) =>
          if inputs[1] == "B" || inputs[1] == "S" then
            Success(MakeOrder(if inputs[1] == "B" then Buy else Sell, inputs[0], price, quantity))
          else Failure(BadSide(inputs[1]))
  }

  /** The record an order is written as. */
  function FormatOrder(o: Order): string {
    Join([o.id, if o.BuyOrder? then "B" else "S", FormatInt(o.limitPrice), FormatInt(o.quantity)])
  }

  /** Every order with a comma-free id and 32-bit numbers parses back from its record. */
  lemma ParseFormatOrder(o: Order)
    requires ',' !in o.id
    requires MinInt <= o.limitPrice <= MaxInt && MinInt <= o.quantity <= MaxInt
    ensures ParseOrder(FormatOrder(o)) == Success(o)
  {
    var fields := [o.id, if o.BuyOrder? then "B" else "S", FormatInt(o.limitPrice), FormatInt(o.quantity)];
    CommaFreeInt(o.limitPrice);
    CommaFreeInt(o.quantity);
    assert ',' !in fields[1];
    SplitJoin(fields);
    ParseFormatInt(o.limitPrice);
    ParseFormatInt(o.quantity);
  }
}
