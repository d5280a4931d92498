/** Argument filters of a subscription. */
module Filters {
  import opened Common

  datatype Value = Str(s: string) | Num(n: int) | Items(items: seq<Value>)

  type Args = map<string, Value>

  datatype Op = Eq | In | Gte | Lte

  // An exception (int() of a non-number, hashing a list, ...) is `Raises`.
  datatype Verdict = Pass | Reject | Raises

  function Split(key: string): (string, Op) {
    if EndsWith(key, "_in") then (key[..|key| - 3], In)
    else if EndsWith(key, "_gte") then (key[..|key| - 4], Gte)
    else if EndsWith(key, "_lte") then (key[..|key| - 4], Lte)
    else (key, Eq)
  }

  function Norm(v: Value): Value {
    match v
    case Str(s) => if StartsWith(s, "0x") then Str(Lower(s)) else v
    case _ => v
  }

  predicate IsDigits(s: string) {
    s != [] && forall i :: 0 <= i < |s| ==> '0' <= s[i] <= '9'
  }

  function DigitsValue(s: string): nat
    requires forall i :: 0 <= i < |s| ==> '0' <= s[i] <= '9'
  {
    if s == [] then 0 else 10 * DigitsValue(s[..|s| - 1]) + (s[|s| - 1] as int - '0' as int)
  }

  // int(v)
  function ToInt(v: Value): Option<int> {
    match v
    case Num(n) => Some(n)
    case Items(_) => None
    case Str(s) =>
      if IsDigits(s) then Some(DigitsValue(s))
      else if s != [] && (s[0] == '-' || s[0] == '+') && IsDigits(s[1..])
      then var n: int := DigitsValue(s[1..]); Some(if s[0] == '-' then -n else n)
      else None
  }

  // The elements a filter value iterates over.
  function Elements(v: Value): Option<seq<Value>> {
    match v
    case Items(vs) => Some(vs)
    case Str(s) => Some(seq(|s|, i requires 0 <= i < |s| => Str([s[i]])))
    case Num(_) => None
  }

  // One filter entry on one event.
  function Entry(key: string, expected: Value, args: Args): Verdict {
    var (field, op) := Split(key);
    if field !in args then Reject
    else
      var actual := args[field];
      match op
      case Eq => if Norm(actual) != Norm(expected) then Reject else Pass
      case In =>
        var es := Elements(expected);
        if es.None? || (exists v :: v in es.value && v.Items?) || actual.Items? then Raises
        else if exists v :: v in es.value && Norm(v) == Norm(actual) then Pass else Reject
      case Gte =>
        var a, e := ToInt(actual), ToInt(expected);
        if a.None? || e.None? then Raises else if a.value < e.value then Reject else Pass
      case Lte =>
        var a, e := ToInt(actual), ToInt(expected);
        if a.None? || e.None? then Raises else if a.value > e.value then Reject else Pass
  }

  // The entries in order, up to the first that does not pass.
  function Evaluate(filters: seq<(string, Value)>, args: Args): Verdict {
    if filters == [] then Pass
    else
      var v := Entry(filters[0].0, filters[0].1, args);
      if v != Pass then v else Evaluate(filters[1..], args)
  }

  // The order of the entries never decides a match: it passes exactly when every
  // entry passes.
  lemma {:induction false} PassesIffAllPass(filters: seq<(string, Value)>, args: Args)
    ensures Evaluate(filters, args) == Pass
            <==> forall i :: 0 <= i < |filters| ==> Entry(filters[i].0, filters[i].1, args) == Pass
  {
    if filters != [] {
      PassesIffAllPass(filters[1..], args);
      if forall i :: 0 <= i < |filters| ==> Entry(filters[i].0, filters[i].1, args) == Pass {
        assert forall i :: 0 <= i < |filters[1..]| ==> filters[1..][i] == filters[i + 1];
      }
    }
  }

  // ----- What an entry tests -----

  // Equal, or hex strings equal but for case.
  predicate SameValue(a: Value, b: Value) {
    || a == b
    || (a.Str? && b.Str? && StartsWith(a.s, "0x") && StartsWith(b.s, "0x") && Lower(a.s) == Lower(b.s))
  }

  lemma NormMeansSame(a: Value, b: Value)
    ensures Norm(a) == Norm(b) <==> SameValue(a, b)
  {
    if a.Str? && StartsWith(a.s, "0x") {
      assert StartsWith(Lower(a.s), "0x");
    }
    if b.Str? && StartsWith(b.s, "0x") {
      assert StartsWith(Lower(b.s), "0x");
    }
  }

  predicate IsPlainField(field: string) {
    !EndsWith(field, "_in") && !EndsWith(field, "_gte") && !EndsWith(field, "_lte")
  }

  // An entry without an operator suffix passes exactly when the field is there with
  // the same value; it never raises.
  lemma EqualityMeaning(field: string, expected: Value, args: Args)
    requires IsPlainField(field)
    ensures Entry(field, expected, args) == Pass <==> field in args && SameValue(args[field], expected)
    ensures Entry(field, expected, args) != Raises
  {
    hide Norm;
    if field in args {
      NormMeansSame(args[field], expected);
    }
  }

  // A list test passes exactly when the field is there with the same value as some
  // element; a string is a list of its characters.
  lemma MembershipMeaning(field: string, expected: Value, args: Args)
    ensures Entry(field + "_in", expected, args) == Pass <==>
              && field in args && !args[field].Items?
              && (match expected
                  case Items(vs) =>
                    (forall v :: v in vs ==> !v.Items?) && (exists v :: v in vs && SameValue(args[field], v))
                  case Str(s) => exists c :: c in s && args[field] == Str([c])
                  case Num(_) => false)
    ensures Entry(field + "_in", expected, args) == Raises <==>
              field in args && (args[field].Items? || expected.Num?
                                || (expected.Items? && exists v :: v in expected.items && v.Items?))
  {
    hide Split, Norm;
    SplitInverts(field, In);
    if field in args {
      forall v ensures Norm(v) == Norm(args[field]) <==> SameValue(args[field], v) {
        NormMeansSame(v, args[field]);
      }
      if expected.Str? {
        var es := Elements(expected).value;
        forall c | c in expected.s ensures Str([c]) in es {
          var i :| 0 <= i < |expected.s| && expected.s[i] == c;
          assert es[i] == Str([c]);
        }
        forall v | v in es ensures exists c :: c in expected.s && v == Str([c]) {
          var i :| 0 <= i < |es| && es[i] == v;
          assert expected.s[i] in expected.s;
        }
      }
    }
  }

  // Range tests compare what the two values are read as, and raise when one of them
  // is no number.
  lemma RangeMeaning(field: string, expected: Value, args: Args)
    requires field in args
    ensures var a, e := ToInt(args[field]), ToInt(expected);
            && (Entry(field + "_gte", expected, args) == Pass <==> a.Some? && e.Some? && a.value >= e.value)
            && (Entry(field + "_lte", expected, args) == Pass <==> a.Some? && e.Some? && a.value <= e.value)
            && (a.None? || e.None? ==>
                  Entry(field + "_gte", expected, args) == Entry(field + "_lte", expected, args) == Raises)
  {
    hide Split, ToInt;
    SplitInverts(field, Gte);
    SplitInverts(field, Lte);
  }

  // A field the event does not have never passes, under any operator.
  lemma AbsentRejects(field: string, op: Op, expected: Value, args: Args)
    requires field !in args && (op == Eq ==> IsPlainField(field))
    ensures Entry(field + Suffix(op), expected, args) == Reject
  {
    hide Split;
    SplitInverts(field, op);
  }

  // A field can be tested for equality exactly when its own name does not end in
  // an operator suffix: `amount_in` is always read as a list test on `amount`.
  lemma EqualityReaches(field: string)
    ensures (exists key :: Split(key) == (field, Eq))
            <==> IsPlainField(field)
  {
    if IsPlainField(field) {
      assert Split(field) == (field, Eq);
    }
  }

  function Suffix(op: Op): string {
    match op
    case In => "_in"
    case Gte => "_gte"
    case Lte => "_lte"
    case Eq => ""
  }

  // Splitting a key undoes appending an operator suffix, and a key without one
  // is an equality test on itself.
  lemma SplitInverts(field: string, op: Op)
    requires op == Eq ==> IsPlainField(field)
    ensures Split(field + Suffix(op)) == (field, op)
  {
    var key := field + Suffix(op);
    assert key[|field|..] == Suffix(op) && key[..|field|] == field;
    match op
    case Eq => assert key == field;
    case In =>
    case Gte => LastDiffers(key);
    case Lte =>
      LastDiffers(key);
      assert key[|key| - 4..] == "_lte" && "_gte"[1] != "_lte"[1];
  }

  lemma LastDiffers(key: string)
    requires key != [] && key[|key| - 1] == 'e'
    ensures !EndsWith(key, "_in")
  {
    if |key| >= 3 {
      assert key[|key| - 3..][2] == key[|key| - 1] && "_in"[2] == 'n';
    }
  }

  // str(n) for a natural number.
  function Dec(n: nat): string {
    (if n < 10 then [] else Dec(n / 10)) + [('0' as int + n % 10) as char]
  }

  // A big integer carried as a decimal string compares as the number it is.
  lemma {:induction false} DecimalRoundTrip(n: nat)
    ensures ToInt(Str(Dec(n))) == Some(n)
  {
    DecIsDigits(n);
  }

  // Range tests on decimal strings are those on the numbers, of any size.
  lemma DecimalsCompare(field: string, actual: nat, expected: nat, args: Args)
    requires field in args && args[field] == Str(Dec(actual))
    ensures Entry(field + "_gte", Str(Dec(expected)), args) == if actual >= expected then Pass else Reject
    ensures Entry(field + "_lte", Str(Dec(expected)), args) == if actual <= expected then Pass else Reject
  {
    hide Split, ToInt, Dec;
    SplitInverts(field, Gte);
    SplitInverts(field, Lte);
    DecimalRoundTrip(actual);
    DecimalRoundTrip(expected);
  }

  // Signed decimals and plain integers.
  lemma IntegersAreRead(n: int)
    requires n >= 0
    ensures ToInt(Num(n)) == Some(n) && ToInt(Num(0 - n)) == Some(0 - n)
    ensures ToInt(Str("-" + Dec(n))) == Some(0 - n) && ToInt(Str("+" + Dec(n))) == Some(n)
    ensures forall vs :: ToInt(Items(vs)).None?
  {
    hide Dec, DigitsValue;
    DecIsDigits(n);
    SignedIsRead("-", Dec(n));
    SignedIsRead("+", Dec(n));
  }

  lemma SignedIsRead(sign: string, digits: string)
    requires (sign == "-" || sign == "+") && IsDigits(digits)
    ensures ToInt(Str(sign + digits)) == Some(if sign == "-" then 0 - DigitsValue(digits) else DigitsValue(digits))
  {
    hide DigitsValue;
    var s := sign + digits;
    assert s[0] == sign[0] && s[1..] == digits;
    assert !IsDigits(s);
  }

  // A string with a character that is neither a digit nor a leading sign is no number.
  lemma NoNumber(s: string, i: nat)
    requires i < |s| && !('0' <= s[i] <= '9') && (i > 0 || (s[0] != '-' && s[0] != '+') || |s| == 1)
    ensures ToInt(Str(s)).None?
  {
    if i > 0 {
      assert s[1..][i - 1] == s[i];
    }
  }

  lemma {:induction false} DecIsDigits(n: nat)
    ensures IsDigits(Dec(n)) && DigitsValue(Dec(n)) == n
  {
    var last := ('0' as int + n % 10) as char;
    if n < 10 {
      assert Dec(n) == [last];
    } else {
      DecIsDigits(n / 10);
      assert Dec(n)[..|Dec(n)| - 1] == Dec(n / 10);
    }
  }
}
