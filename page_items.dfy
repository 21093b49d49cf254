/**
 * Reading one item's value out of a page reply. A page lists entries of the
 * form <item id='ID'><name>NAME</name><value>VALUE</value></item>; the client
 * looks for the first entry whose name is the item and whose value starts with
 * a number, and reads that number.
 *
 * The regular expression the clients build is modelled as a literal scanner:
 * the first position at which the whole pattern matches wins, the id runs to
 * the next quote, the value runs to the next '<', and the captured token is
 * the longest numeric prefix of the value.
 */
module PageItems {
  import opened Wrappers
  import opened Errors

  const ItemOpen: string := "<item id='"
  const NameOpen: string := "'><name>"
  const NameClose: string := "</name><value>"
  const ValueClose: string := "</value></item>"

  /** Which client's pattern: the Rust one captures (-?[0-9.]+|---), the Go one [0-9.]*. */
  datatype Flavour = Rust | Go

  predicate IsDigit(c: char) {
    '0' <= c <= '9'
  }

  predicate IsNumeric(c: char) {
    IsDigit(c) || c == '.'
  }

  /** `lit` occurs in `s` at position `i`. */
  predicate LiteralAt(s: string, i: nat, lit: string) {
    i + |lit| <= |s| && s[i..i + |lit|] == lit
  }

  /** The first index at or after `from` holding `c`. */
  function IndexOf(s: string, c: char, from: nat): (r: Option<nat>)
    ensures r.Some? ==> from <= r.value < |s| && s[r.value] == c
    ensures r.Some? ==> forall k :: from <= k < r.value ==> s[k] != c
    ensures r.None? ==> forall k :: from <= k < |s| ==> s[k] != c
    decreases |s| - from
  {
    if from >= |s| then None
    else if s[from] == c then Some(from)
    else IndexOf(s, c, from + 1)
  }

  /** The length of the longest run of digits and dots starting at `from`. */
  function NumericRun(s: string, from: nat): (n: nat)
    requires from <= |s|
    ensures from + n <= |s|
    ensures forall k :: from <= k < from + n ==> IsNumeric(s[k])
    ensures from + n == |s| || !IsNumeric(s[from + n])
    decreases |s| - from
  {
    if from == |s| || !IsNumeric(s[from]) then 0 else 1 + NumericRun(s, from + 1)
  }

  /** The token the capture group takes from the value text of an entry, if the
      group can match there at all. Greedy quantifiers make it the longest
      numeric prefix; the Rust pattern allows one leading minus sign and falls
      back to the "---" placeholder, the Go pattern may capture nothing. */
  function Capture(flavour: Flavour, value: string): (token: Option<string>)
    ensures flavour.Go? ==> token.Some?
    ensures token.Some? ==> token.value <= value
    ensures flavour.Rust? && token.Some? ==> token.value != []
  {
    match flavour
    case Go => Some(value[..NumericRun(value, 0)])
    case Rust =>
      if |value| > 0 && value[0] == '-' && NumericRun(value, 1) > 0 then Some(value[..1 + NumericRun(value, 1)])
      else if NumericRun(value, 0) > 0 then Some(value[..NumericRun(value, 0)])
      else if LiteralAt(value, 0, "---") then Some("---")
      else None
  }

  /** The pattern for `item`, tried at the very start of `text`: the captured
      token when the whole pattern matches there. */
  function MatchHere(flavour: Flavour, text: string, item: string): Option<string> {
    if !LiteralAt(text, 0, ItemOpen) then None
    else
      match IndexOf(text, '\'', |ItemOpen|)
      case None => None
      case Some(q) =>
        if !LiteralAt(text, q, NameOpen + item + NameClose) then None
        else
          var v := q + |NameOpen| + |item| + |NameClose|;
          match IndexOf(text, '<', v)
          case None => None
          case Some(e) =>
            if !LiteralAt(text, e, ValueClose) then None else Capture(flavour, text[v..e])
  }

  /** The pattern of the item being read, as a matcher tried at the start of a text. */
  function Pattern(flavour: Flavour, item: string): string -> Option<string> {
    text => MatchHere(flavour, text, item)
  }

  /** The matcher tried at position `i` of a page. */
  function MatchAt(pattern: string -> Option<string>, page: string, i: nat): Option<string>
    requires i <= |page|
  {
    pattern(page[i..])
  }

  /** The leftmost position at or after `from` where the pattern matches. */
  function FirstMatch(pattern: string -> Option<string>, page: string, from: nat := 0): (r: Option<nat>)
    requires from <= |page|
    ensures r.Some? ==> from <= r.value <= |page| && MatchAt(pattern, page, r.value).Some?
    ensures r.Some? ==> forall j :: from <= j < r.value ==> MatchAt(pattern, page, j).None?
    ensures r.None? ==> forall j :: from <= j <= |page| ==> MatchAt(pattern, page, j).None?
    decreases |page| - from
  {
    if MatchAt(pattern, page, from).Some? then Some(from)
    else if from == |page| then None
    else FirstMatch(pattern, page, from + 1)
  }

  // ---------------------------------------------------------------------
  // Decimal tokens
  // ---------------------------------------------------------------------

  function Count(s: string, c: char): nat {
    if s == [] then 0 else Count(s[..|s| - 1], c) + (if s[|s| - 1] == c then 1 else 0)
  }

  predicate AllDigits(s: string) {
    forall k :: 0 <= k < |s| ==> IsDigit(s[k])
  }

  /** The token without its leading minus sign, if it has one. */
  function Unsigned(token: string): string {
    if |token| > 0 && token[0] == '-' then token[1..] else token
  }

  /** Digits and dots with at most one dot and at least one digit. */
  ghost predicate IsUnsignedDecimal(body: string) {
    && (forall k :: 0 <= k < |body| ==> IsNumeric(body[k]))
    && Count(body, '.') <= 1
    && exists k :: 0 <= k < |body| && IsDigit(body[k])
  }

  /** A token the float parsers accept, among tokens made of an optional minus
      sign, digits and dots. */
  ghost predicate IsDecimal(token: string) {
    IsUnsignedDecimal(Unsigned(token))
  }

  function DigitsValue(ds: string): nat
    requires AllDigits(ds)
  {
    if ds == [] then 0 else 10 * DigitsValue(ds[..|ds| - 1]) + ((ds[|ds| - 1] as int) - ('0' as int))
  }

  function Pow10(n: nat): (p: nat)
    ensures p > 0
  {
    if n == 0 then 1 else 10 * Pow10(n - 1)
  }

  /** The value of the digits before and after a decimal point. */
  function DecimalValue(whole: string, fraction: string): real
    requires AllDigits(whole) && AllDigits(fraction)
  {
    DigitsValue(whole) as real + DigitsValue(fraction) as real / Pow10(|fraction|) as real
  }

  lemma {:induction false} CountZero(s: string, c: char)
    ensures Count(s, c) == 0 <==> forall k :: 0 <= k < |s| ==> s[k] != c
  {
    if s != [] {
      CountZero(s[..|s| - 1], c);
    }
  }

  lemma {:induction false} CountSplit(a: string, b: string, c: char)
    ensures Count(a + b, c) == Count(a, c) + Count(b, c)
    decreases |b|
  {
    if b == [] {
      assert a + b == a;
    } else {
      assert (a + b)[..|a + b| - 1] == a + b[..|b| - 1];
      CountSplit(a, b[..|b| - 1], c);
    }
  }

  /** Splitting at the first dot leaves one dot fewer to the right of it. */
  lemma FirstDotCount(body: string, d: nat)
    requires IndexOf(body, '.', 0) == Some(d)
    ensures Count(body, '.') == 1 + Count(body[d + 1..], '.')
  {
    assert body == body[..d] + ([body[d]] + body[d + 1..]);
    CountSplit(body[..d], [body[d]] + body[d + 1..], '.');
    CountSplit([body[d]], body[d + 1..], '.');
    CountZero(body[..d], '.');
    assert [body[d]][..0] == [];
  }

  /** Parses digits and dots as an exact non-negative decimal; exactly the
      texts IsUnsignedDecimal accepts parse. */
  function ParseUnsigned(body: string): (r: Option<real>)
    ensures r.Some? <==> IsUnsignedDecimal(body)
    ensures r.Some? ==> r.value >= 0.0
  {
    if exists k :: 0 <= k < |body| && !IsNumeric(body[k]) then None
    else
      match IndexOf(body, '.', 0)
      case None =>
        CountZero(body, '.');
        if body == [] then None
        else
          assert IsDigit(body[0]);
          Some(DigitsValue(body) as real)
      case Some(d) =>
        var whole, fraction := body[..d], body[d + 1..];
        FirstDotCount(body, d);
        CountZero(fraction, '.');
        if exists k :: 0 <= k < |fraction| && fraction[k] == '.' then None
        else if whole == [] && fraction == [] then
          assert |body| == 1;
          None
        else
          assert AllDigits(whole) && AllDigits(fraction);
          assert whole != [] ==> IsDigit(body[0]);
          assert fraction != [] ==> IsDigit(body[d + 1]);
          Some(DecimalValue(whole, fraction))
  }

  /** Parses a token of digits and dots with an optional leading minus sign;
      exactly the tokens IsDecimal accepts parse, and the sign is the token's. */
  function ParseDecimal(token: string): (r: Option<real>)
    ensures r.Some? <==> IsDecimal(token)
    ensures r.Some? && r.value < 0.0 ==> token[0] == '-'
  {
    match ParseUnsigned(Unsigned(token))
    case None => None
    case Some(v) => Some(if |token| > 0 && token[0] == '-' then -v else v)
  }

  /** A text with at most one dot has its only dot where the search finds the first. */
  lemma OnlyDot(u: string, d: nat)
    requires Count(u, '.') <= 1 && d < |u| && u[d] == '.'
    ensures IndexOf(u, '.', 0) == Some(d)
  {
    var e := IndexOf(u, '.', 0).value;
    if e < d {
      FirstDotCount(u, e);
      assert u[e + 1..][d - e - 1] == '.';
      CountZero(u[e + 1..], '.');
      assert false;
    }
  }

  /** The value of every token the float parser accepts: the digits read as an
      integer when there is no point, or as the whole and fractional parts on
      either side of the point wherever it stands (also first or last), negated
      exactly when the token starts with a minus sign. */
  lemma ParseDecimalValue(token: string)
    requires IsDecimal(token)
    ensures var u, sign := Unsigned(token), if |token| > 0 && token[0] == '-' then -1.0 else 1.0;
            && ((forall k :: 0 <= k < |u| ==> u[k] != '.') ==>
                  AllDigits(u) && ParseDecimal(token) == Some(sign * DigitsValue(u) as real))
            && (forall d :: 0 <= d < |u| && u[d] == '.' ==>
                  AllDigits(u[..d]) && AllDigits(u[d + 1..])
                  && ParseDecimal(token) == Some(sign * DecimalValue(u[..d], u[d + 1..])))
  {
    var u := Unsigned(token);
    if forall k :: 0 <= k < |u| ==> u[k] != '.' {
      assert IndexOf(u, '.', 0).None?;
      assert AllDigits(u);
    }
    forall d | 0 <= d < |u| && u[d] == '.'
      ensures AllDigits(u[..d]) && AllDigits(u[d + 1..])
      ensures ParseDecimal(token) == Some((if |token| > 0 && token[0] == '-' then -1.0 else 1.0) * DecimalValue(u[..d], u[d + 1..]))
    {
      ParseDecimalPoint(token, d);
    }
  }

  /** A token whose point stands at `d` parses to the parts on either side of it. */
  lemma ParseDecimalPoint(token: string, d: nat)
    requires IsDecimal(token) && d < |Unsigned(token)| && Unsigned(token)[d] == '.'
    ensures var u := Unsigned(token);
            && AllDigits(u[..d]) && AllDigits(u[d + 1..])
            && ParseDecimal(token) == Some((if |token| > 0 && token[0] == '-' then -1.0 else 1.0) * DecimalValue(u[..d], u[d + 1..]))
  {
    var u := Unsigned(token);
    OnlyDot(u, d);
    FirstDotCount(u, d);
    CountZero(u[d + 1..], '.');
  }

  /** An integer token parses to its digits. */
  lemma ParseInteger()
    ensures ParseDecimal("1200") == Some(1200.0)
  {
    ParseDecimalValue("1200");
    assert "1200"[..3] == "120" && "120"[..2] == "12" && "12"[..1] == "1" && "1"[..0] == "";
    assert DigitsValue("1200") == 1200;
  }

  /** A negative token parses to the negated value of its digits. */
  lemma ParseNegative()
    ensures ParseDecimal("-3.5") == Some(-3.5)
  {
    var u := Unsigned("-3.5");
    assert u == "3.5";
    assert u[1] == '.';
    assert Count(u, '.') == 1 by {
      assert u[..2] == "3." && "3."[..1] == "3" && "3"[..0] == "";
    }
    assert IsDigit(u[0]);
    ParseDecimalPoint("-3.5", 1);
    assert u[..1] == "3" && u[2..] == "5";
    assert "3"[..0] == "" && "5"[..0] == "";
    assert DecimalValue("3", "5") == 3.5;
  }

  /** A point without a whole part reads as zero before the point. */
  lemma ParseLeadingPoint()
    ensures ParseDecimal(".5") == Some(0.5)
  {
    ParseDecimalValue(".5");
    assert ".5"[..0] == "" && ".5"[1..] == "5";
    assert "5"[..0] == "";
    assert DecimalValue("", "5") == 0.5;
  }

  /** Two points, or a lone minus sign, do not parse. */
  lemma ParseRefused()
    ensures ParseDecimal("1.2.3") == None
    ensures ParseDecimal("-") == None
  {
    assert "1.2.3"[..4] == "1.2." && "1.2."[..3] == "1.2" && "1.2"[..2] == "1." && "1."[..1] == "1" && "1"[..0] == "";
    assert Count("1.2.3", '.') == 2;
    assert Unsigned("-") == "";
  }

  /** The Go pattern cannot match a minus sign, so every negative reading is
      captured as the empty token, which the float parser refuses: the Go
      reader fails on it instead of reading the number. */
  lemma GoRefusesNegative(value: string)
    requires |value| > 0 && value[0] == '-'
    ensures Capture(Go, value) == Some("")
    ensures ReadToken(Go, "") == Failure(ValueNotParsed(""))
  {
  }

  // ---------------------------------------------------------------------
  // The two clients' item readers
  // ---------------------------------------------------------------------

  /** The token the pattern captures at its leftmost match, if it matches anywhere. */
  function Scan(pattern: string -> Option<string>, page: string): (token: Option<string>)
    ensures token.None? <==> forall j :: 0 <= j <= |page| ==> MatchAt(pattern, page, j).None?
    ensures token.Some? ==> exists j :: 0 <= j <= |page| && MatchAt(pattern, page, j) == token
                                     && forall i :: 0 <= i < j ==> MatchAt(pattern, page, i).None?
  {
    match FirstMatch(pattern, page)
    case None => None
    case Some(i) => MatchAt(pattern, page, i)
  }

  /** The token the pattern captured and the number it stands for. */
  datatype Extracted = Extracted(token: string, value: real)

  /** How a client turns the captured token into a number: the Rust client
      reads the "---" placeholder as 0.0, both hand the rest to the float parser. */
  function ReadToken(flavour: Flavour, token: string): (r: Result<Extracted, ClientError>)
    ensures r.Success? ==> r.value.token == token
    ensures r.Failure? <==> !(flavour.Rust? && token == "---") && !IsDecimal(token)
    ensures r.Failure? ==> r.error == ValueNotParsed(token)
    ensures flavour.Rust? && token == "---" ==> r == Success(Extracted("---", 0.0))
    ensures !(flavour.Rust? && token == "---") && r.Success? ==> Some(r.value.value) == ParseDecimal(token)
  {
    if flavour.Rust? && token == "---" then Success(Extracted(token, 0.0))
    else
      match ParseDecimal(token)
      case None => Failure(ValueNotParsed(token))
      case Some(v) => Success(Extracted(token, v))
  }

  /** Rust get_item_from_response: the first entry the pattern matches;
      "---" reads as 0.0. */
  function ItemFromResponse(item: string, response: string): (r: Result<Extracted, ClientError>)
    ensures r == Failure(NoMatchForItem(item)) <==> Scan(Pattern(Rust, item), response).None?
    ensures r.Failure? ==> r.error == NoMatchForItem(item) || r.error.ValueNotParsed?
  {
    match Scan(Pattern(Rust, item), response)
    case None => Failure(NoMatchForItem(item))
    case Some(token) => ReadToken(Rust, token)
  }

  /** Go getItemFromResponse: the first entry the pattern matches, its
      (possibly empty) digits-and-dots prefix handed to the float parser. */
  function GoItemFromResponse(item: string, response: string): (r: Result<Extracted, ClientError>)
    ensures r == Failure(NoMatchForItem(item)) <==> Scan(Pattern(Go, item), response).None?
    ensures r.Failure? ==> r.error == NoMatchForItem(item) || r.error.ValueNotParsed?
  {
    match Scan(Pattern(Go, item), response)
    case None => Failure(NoMatchForItem(item))
    case Some(token) => ReadToken(Go, token)
  }

  // ---------------------------------------------------------------------
  // Pages made of entries
  // ---------------------------------------------------------------------

  /** One entry of a page reply. */
  function Entry(id: string, name: string, value: string): string {
    ItemOpen + (id + (NameOpen + (name + (NameClose + (value + ValueClose)))))
  }

  /** The fields of an entry as the controller sends them: no quote in the id
      and no '<' in any field. */
  predicate PlainEntry(id: string, name: string, value: string) {
    '\'' !in id && '<' !in id && '<' !in name && '<' !in value
  }

  /** Nothing inside an entry, past its first character, starts another entry. */
  lemma NoEntryStartsInside(id: string, name: string, value: string, rest: string, j: nat)
    requires PlainEntry(id, name, value)
    requires 0 < j < |Entry(id, name, value)|
    ensures !LiteralAt((Entry(id, name, value) + rest)[j..], 0, ItemOpen)
  {
    var t := Entry(id, name, value) + rest;
    var q := |ItemOpen| + |id|;
    var n0 := q + |NameOpen| + |name|;
    var v := n0 + |NameClose|;
    var e := v + |value|;
    if j < |ItemOpen| {
      assert t[j] == ItemOpen[j];
    } else if j < q {
      assert t[j] == id[j - |ItemOpen|];
      assert t[j] in id;
    } else if j < q + |NameOpen| {
      assert t[j] == NameOpen[j - q];
      assert j + 1 < q + |NameOpen| ==> t[j + 1] == NameOpen[j + 1 - q];
    } else if j < n0 {
      assert t[j] == name[j - q - |NameOpen|];
      assert t[j] in name;
    } else if j < v {
      assert t[j] == NameClose[j - n0];
      assert j + 1 < v ==> t[j + 1] == NameClose[j + 1 - n0];
    } else if j < e {
      assert t[j] == value[j - v];
      assert t[j] in value;
    } else {
      assert t[j] == ValueClose[j - e];
      assert j + 1 < e + |ValueClose| ==> t[j + 1] == ValueClose[j + 1 - e];
    }
    assert t[j] != '<' || (j + 1 < |t| && t[j + 1] != 'i');
  }

  lemma IndexOfIs(s: string, c: char, from: nat, p: nat)
    requires from <= p < |s| && s[p] == c
    requires forall k :: from <= k < p ==> s[k] != c
    ensures IndexOf(s, c, from) == Some(p)
  {
  }

  /** The name part of the pattern matches an entry's name part only when the
      entry's name is the item. */
  lemma NameMismatch(name: string, item: string, tail: string)
    requires '<' !in name && '<' !in item && name != item
    ensures !LiteralAt(NameOpen + (name + (NameClose + tail)), 0, NameOpen + item + NameClose)
  {
    var t := NameOpen + (name + (NameClose + tail));
    var p := NameOpen + item + NameClose;
    if |t| >= |p| {
      var k: nat;
      if |name| == |item| {
        assert exists i :: 0 <= i < |name| && name[i] != item[i];
        k :| k < |name| && name[k] != item[k];
      } else {
        k := if |name| < |item| then |name| else |item|;
      }
      var o := |NameOpen| + k;
      if k < |name| && k < |item| {
        assert t[o] == name[k] && p[o] == item[k];
      } else if k == |name| {
        assert t[o] == '<' && p[o] == item[k] && p[o] in item;
      } else {
        assert t[o] == name[k] && t[o] in name && p[o] == '<';
      }
      assert t[..|p|][o] != p[o];
    }
  }

  lemma {:induction false} IndexOfShift(s: string, c: char, q: nat, k: nat)
    requires q <= |s|
    ensures IndexOf(s, c, q + k) == match IndexOf(s[q..], c, k) case None => None case Some(x) => Some(q + x)
    decreases |s| - q - k
  {
    if q + k < |s| && s[q + k] != c {
      IndexOfShift(s, c, q, k + 1);
    }
  }

  lemma LiteralShift(s: string, q: nat, k: nat, lit: string)
    requires q <= |s|
    ensures LiteralAt(s, q + k, lit) <==> LiteralAt(s[q..], k, lit)
  {
    if q + k + |lit| <= |s| {
      assert s[q + k..q + k + |lit|] == s[q..][k..k + |lit|];
    }
  }

  /** An entry starts with the opening literal and its id runs to the first quote. */
  lemma EntryHead(id: string, name: string, value: string, rest: string)
    requires PlainEntry(id, name, value)
    ensures LiteralAt(Entry(id, name, value) + rest, 0, ItemOpen)
    ensures IndexOf(Entry(id, name, value) + rest, '\'', |ItemOpen|) == Some(|ItemOpen| + |id|)
    ensures (Entry(id, name, value) + rest)[|ItemOpen| + |id|..]
         == NameOpen + (name + (NameClose + (value + ValueClose))) + rest
  {
    var t := Entry(id, name, value) + rest;
    var q := |ItemOpen| + |id|;
    assert t[..|ItemOpen|] == ItemOpen;
    assert forall k :: |ItemOpen| <= k < q ==> t[k] == id[k - |ItemOpen|];
    IndexOfIs(t, '\'', |ItemOpen|, q);
  }

  /** After the id: the name part matches exactly when the name is the item,
      and then the value runs to the closing literal. */
  lemma EntryBody(name: string, value: string, rest: string, item: string)
    requires '<' !in name && '<' !in value && '<' !in item
    ensures var u := NameOpen + (name + (NameClose + (value + ValueClose))) + rest;
      var p := NameOpen + item + NameClose;
      && (LiteralAt(u, 0, p) <==> name == item)
      && (name == item ==>
           && IndexOf(u, '<', |p|) == Some(|p| + |value|)
           && LiteralAt(u, |p| + |value|, ValueClose)
           && u[|p|..|p| + |value|] == value)
  {
    var u := NameOpen + (name + (NameClose + (value + ValueClose))) + rest;
    var p := NameOpen + item + NameClose;
    if name != item {
      NameMismatch(name, item, value + ValueClose + rest);
      assert u == NameOpen + (name + (NameClose + (value + ValueClose + rest)));
    } else {
      assert u[..|p|] == p;
      var e := |p| + |value|;
      assert forall k :: |p| <= k < e ==> u[k] == value[k - |p|];
      IndexOfIs(u, '<', |p|, e);
      assert u[e..e + |ValueClose|] == ValueClose;
      assert u[|p|..e] == value;
    }
  }

  /** MatchHere fails when the name part does not follow the id. */
  lemma MatchHereStages(flavour: Flavour, t: string, item: string, p: string, q: nat)
    requires p == NameOpen + item + NameClose
    requires LiteralAt(t, 0, ItemOpen) && IndexOf(t, '\'', |ItemOpen|) == Some(q)
    ensures !LiteralAt(t, q, p) ==> MatchHere(flavour, t, item) == None
  {
  }

  /** MatchHere captures what lies between the name part and the closing literal. */
  lemma MatchHereCaptures(flavour: Flavour, t: string, item: string, p: string, q: nat, e: nat)
    requires p == NameOpen + item + NameClose
    requires LiteralAt(t, 0, ItemOpen) && IndexOf(t, '\'', |ItemOpen|) == Some(q)
    requires LiteralAt(t, q, p) && IndexOf(t, '<', q + |p|) == Some(e) && LiteralAt(t, e, ValueClose)
    ensures q + |p| <= e && MatchHere(flavour, t, item) == Capture(flavour, t[q + |p|..e])
  {
    var v := q + |NameOpen| + |item| + |NameClose|;
    assert v == q + |p|;
    assert LiteralAt(t, q, NameOpen + item + NameClose);
    assert IndexOf(t, '<', v) == Some(e);
  }

  /** Facts about the text past position q carry over to the whole text. */
  lemma ShiftedFacts(t: string, q: nat, p: string, value: string, close: string)
    requires q <= |t| && LiteralAt(t[q..], 0, p)
    requires IndexOf(t[q..], '<', |p|) == Some(|p| + |value|)
    requires LiteralAt(t[q..], |p| + |value|, close)
    requires t[q..][|p|..|p| + |value|] == value
    ensures LiteralAt(t, q, p)
    ensures IndexOf(t, '<', q + |p|) == Some(q + |p| + |value|)
    ensures LiteralAt(t, q + |p| + |value|, close)
    ensures t[q + |p|..q + |p| + |value|] == value
  {
    LiteralShift(t, q, 0, p);
    IndexOfShift(t, '<', q, |p|);
    LiteralShift(t, q, |p| + |value|, close);
    assert t[q + |p|..q + |p| + |value|] == t[q..][|p|..|p| + |value|];
  }

  /** Past the id at q, the pattern matches when the name part p does, and
      then captures the text up to the next '<' when the closing literal
      follows it. */
  lemma MatchHereAfterId(flavour: Flavour, t: string, q: nat, item: string, p: string, value: string)
    requires p == NameOpen + item + NameClose
    requires LiteralAt(t, 0, ItemOpen) && IndexOf(t, '\'', |ItemOpen|) == Some(q)
    requires LiteralAt(t[q..], 0, p) ==>
        && IndexOf(t[q..], '<', |p|) == Some(|p| + |value|)
        && LiteralAt(t[q..], |p| + |value|, ValueClose)
        && t[q..][|p|..|p| + |value|] == value
    ensures MatchHere(flavour, t, item) == if LiteralAt(t[q..], 0, p) then Capture(flavour, value) else None
  {
    LiteralShift(t, q, 0, p);
    if LiteralAt(t[q..], 0, p) {
      ShiftedFacts(t, q, p, value, ValueClose);
      MatchHereCaptures(flavour, t, item, p, q, q + |p| + |value|);
    } else {
      MatchHereStages(flavour, t, item, p, q);
    }
  }

  /** At the start of an entry the pattern matches exactly when the entry's
      name is the item, and then captures from the entry's value. */
  lemma EntryMatchHere(flavour: Flavour, id: string, name: string, value: string, rest: string, item: string)
    requires PlainEntry(id, name, value) && '<' !in item
    ensures MatchHere(flavour, Entry(id, name, value) + rest, item)
         == if name == item then Capture(flavour, value) else None
  {
    EntryHead(id, name, value, rest);
    EntryBody(name, value, rest, item);
    MatchHereAfterId(flavour, Entry(id, name, value) + rest, |ItemOpen| + |id|, item, NameOpen + item + NameClose, value);
  }

  /** One entry of a page, as a value. */
  datatype PageEntry = PageEntry(id: string, name: string, value: string)

  /** Entries in order, followed by the text that closes the page. */
  function Render(entries: seq<PageEntry>, footer: string): string {
    if entries == [] then footer
    else Entry(entries[0].id, entries[0].name, entries[0].value) + Render(entries[1..], footer)
  }

  predicate AllPlain(entries: seq<PageEntry>) {
    forall k :: 0 <= k < |entries| ==> PlainEntry(entries[k].id, entries[k].name, entries[k].value)
  }

  /** Text in which no entry starts: every '<' is followed by something other than 'i'. */
  predicate NoItemStart(s: string) {
    forall k :: 0 <= k < |s| && s[k] == '<' ==> k + 1 < |s| && s[k + 1] != 'i'
  }

  /** The reading of a page of entries: the captured token of the first entry
      named `item` whose value the capture group accepts. */
  function Lookup(flavour: Flavour, entries: seq<PageEntry>, item: string): (token: Option<string>)
    ensures token.Some? ==> exists k :: 0 <= k < |entries| && entries[k].name == item
                                      && Capture(flavour, entries[k].value) == token
                                      && forall j :: 0 <= j < k && entries[j].name == item
                                                   ==> Capture(flavour, entries[j].value).None?
    ensures token.None? ==> forall k :: 0 <= k < |entries| && entries[k].name == item
                                      ==> Capture(flavour, entries[k].value).None?
  {
    if entries == [] then None
    else if entries[0].name == item && Capture(flavour, entries[0].value).Some? then Capture(flavour, entries[0].value)
    else
      var r := Lookup(flavour, entries[1..], item);
      assert r.Some? ==> exists k :: 0 <= k < |entries| && entries[k].name == item && Capture(flavour, entries[k].value) == r
                                   && forall j :: 0 <= j < k && entries[j].name == item ==> Capture(flavour, entries[j].value).None? by {
        if r.Some? {
          var k :| 0 <= k < |entries[1..]| && entries[1..][k].name == item && Capture(flavour, entries[1..][k].value) == r
                   && forall j :: 0 <= j < k && entries[1..][j].name == item ==> Capture(flavour, entries[1..][j].value).None?;
          assert entries[k + 1] == entries[1..][k];
          forall j | 0 < j < k + 1 && entries[j].name == item
            ensures Capture(flavour, entries[j].value).None?
          {
            assert entries[j] == entries[1..][j - 1];
          }
        }
      }
      assert r.None? ==> forall k :: 0 < k < |entries| && entries[k].name == item ==> Capture(flavour, entries[k].value).None? by {
        if r.None? {
          forall k | 0 < k < |entries| && entries[k].name == item
            ensures Capture(flavour, entries[k].value).None?
          {
            assert entries[k] == entries[1..][k - 1];
          }
        }
      }
      r
  }

  lemma MatchAtDrop(pattern: string -> Option<string>, page: string, n: nat, j: nat)
    requires n + j <= |page|
    ensures MatchAt(pattern, page, n + j) == MatchAt(pattern, page[n..], j)
  {
    assert page[n + j..] == page[n..][j..];
  }

  /** The leftmost match is the first position that matches. */
  lemma FirstMatchIs(pattern: string -> Option<string>, page: string, p: nat)
    requires p <= |page| && MatchAt(pattern, page, p).Some?
    requires forall j :: 0 <= j < p ==> MatchAt(pattern, page, j).None?
    ensures FirstMatch(pattern, page) == Some(p)
  {
  }

  /** No match in a suffix and none before it: no match at all. */
  lemma FirstMatchDropNone(pattern: string -> Option<string>, page: string, n: nat)
    requires n <= |page|
    requires forall j :: 0 <= j < n ==> MatchAt(pattern, page, j).None?
    requires FirstMatch(pattern, page[n..]).None?
    ensures FirstMatch(pattern, page).None?
  {
    forall j | n <= j <= |page|
      ensures MatchAt(pattern, page, j).None?
    {
      MatchAtDrop(pattern, page, n, j - n);
    }
  }

  /** The first match in a suffix, with none before it, is the first match. */
  lemma FirstMatchDropSome(pattern: string -> Option<string>, page: string, n: nat, x: nat)
    requires n <= |page|
    requires forall j :: 0 <= j < n ==> MatchAt(pattern, page, j).None?
    requires FirstMatch(pattern, page[n..]) == Some(x)
    ensures FirstMatch(pattern, page) == Some(n + x)
  {
    forall j | n <= j < n + x
      ensures MatchAt(pattern, page, j).None?
    {
      MatchAtDrop(pattern, page, n, j - n);
    }
    MatchAtDrop(pattern, page, n, x);
    FirstMatchIs(pattern, page, n + x);
  }

  /** A prefix in which the pattern matches nowhere does not change what it captures. */
  lemma ScanDrop(pattern: string -> Option<string>, page: string, n: nat)
    requires n <= |page|
    requires forall j :: 0 <= j < n ==> MatchAt(pattern, page, j).None?
    ensures Scan(pattern, page) == Scan(pattern, page[n..])
  {
    var r := FirstMatch(pattern, page[n..]);
    if r.Some? {
      FirstMatchDropSome(pattern, page, n, r.value);
      MatchAtDrop(pattern, page, n, r.value);
    } else {
      FirstMatchDropNone(pattern, page, n);
    }
  }

  /** Every match begins with the characters "<i". */
  lemma ItemStart(s: string, j: nat)
    requires j <= |s|
    ensures LiteralAt(s[j..], 0, ItemOpen) ==> j + 1 < |s| && s[j] == '<' && s[j + 1] == 'i'
  {
    if LiteralAt(s[j..], 0, ItemOpen) {
      assert s[j..][..|ItemOpen|] == ItemOpen;
    }
  }

  /** Text in which no entry starts, followed by anything, adds no match. */
  lemma ScanNoItemStart(flavour: Flavour, header: string, body: string, item: string)
    requires NoItemStart(header)
    ensures Scan(Pattern(flavour, item), header + body) == Scan(Pattern(flavour, item), body)
  {
    var pattern := Pattern(flavour, item);
    var page := header + body;
    forall j | 0 <= j < |header|
      ensures MatchAt(pattern, page, j).None?
    {
      assert page[j] == header[j];
      assert j + 1 < |header| ==> page[j + 1] == header[j + 1];
      ItemStart(page, j);
    }
    ScanDrop(pattern, page, |header|);
    assert page[|header|..] == body;
  }

  /** On a page made of entries the pattern captures exactly what the
      structural reading of the page gives: the token of the first entry named
      `item` whose value the capture group accepts; entries with another name
      or with a value the group rejects are passed over. */
  lemma {:induction false} ScanRendered(flavour: Flavour, entries: seq<PageEntry>, footer: string, item: string)
    requires AllPlain(entries) && NoItemStart(footer) && '<' !in item
    ensures Scan(Pattern(flavour, item), Render(entries, footer)) == Lookup(flavour, entries, item)
    decreases |entries|
  {
    var pattern := Pattern(flavour, item);
    var page := Render(entries, footer);
    if entries == [] {
      ScanNoItemStart(flavour, footer, [], item);
      assert footer + [] == footer;
      assert MatchAt(pattern, [], 0).None?;
    } else {
      var e := entries[0];
      var entry := Entry(e.id, e.name, e.value);
      var rest := Render(entries[1..], footer);
      assert PlainEntry(e.id, e.name, e.value);
      assert page == entry + rest;
      EntryMatchHere(flavour, e.id, e.name, e.value, rest, item);
      assert page[0..] == page;
      if e.name == item && Capture(flavour, e.value).Some? {
        FirstMatchIs(pattern, page, 0);
      } else {
        forall j | 0 <= j < |entry|
          ensures MatchAt(pattern, page, j).None?
        {
          if j > 0 {
            NoEntryStartsInside(e.id, e.name, e.value, rest, j);
          }
        }
        ScanDrop(pattern, page, |entry|);
        assert page[|entry|..] == rest;
        assert AllPlain(entries[1..]) by {
          forall k | 0 <= k < |entries[1..]|
            ensures PlainEntry(entries[1..][k].id, entries[1..][k].name, entries[1..][k].value)
          {
            assert entries[1..][k] == entries[k + 1];
          }
        }
        ScanRendered(flavour, entries[1..], footer, item);
      }
    }
  }

  /** A page reply: text before the entries, the entries, and the text closing the page. */
  function Page(header: string, entries: seq<PageEntry>, footer: string): string {
    header + Render(entries, footer)
  }

  /** The Rust pattern keeps the minus sign of a negative reading and the
      token reads as the negative number. */
  lemma RustReadsNegative()
    ensures Capture(Rust, "-3.5°C") == Some("-3.5")
    ensures ReadToken(Rust, "-3.5") == Success(Extracted("-3.5", -3.5))
  {
    var value := "-3.5°C";
    assert NumericRun(value, 4) == 0;
    assert NumericRun(value, 1) == 3;
    assert value[..4] == "-3.5";
    ParseNegative();
  }

  /** On a well-formed page whose first entry named `item` holds a negative
      reading, the Go reader fails on the empty capture. */
  lemma GoFailsOnNegative(item: string, header: string, entries: seq<PageEntry>, footer: string, k: nat)
    requires NoItemStart(header) && AllPlain(entries) && NoItemStart(footer) && '<' !in item
    requires k < |entries| && entries[k].name == item
    requires forall j :: 0 <= j < k ==> entries[j].name != item
    requires |entries[k].value| > 0 && entries[k].value[0] == '-'
    ensures GoItemFromResponse(item, Page(header, entries, footer)) == Failure(ValueNotParsed(""))
  {
    ReadersOnPage(item, header, entries, footer);
    GoRefusesNegative(entries[k].value);
    var t := Lookup(Go, entries, item);
    assert t.Some?;
    var first :| 0 <= first < |entries| && entries[first].name == item && Capture(Go, entries[first].value) == t
                 && forall j :: 0 <= j < first && entries[j].name == item ==> Capture(Go, entries[j].value).None?;
    assert first <= k;
    assert first == k;
  }

  /** Both readers on a well-formed page: no entry named `item` with a value
      the capture group accepts means "no match"; otherwise the first such
      entry's token is interpreted. */
  lemma ReadersOnPage(item: string, header: string, entries: seq<PageEntry>, footer: string)
    requires NoItemStart(header) && AllPlain(entries) && NoItemStart(footer) && '<' !in item
    ensures ItemFromResponse(item, Page(header, entries, footer))
         == match Lookup(Rust, entries, item)
            case None => Failure(NoMatchForItem(item))
            case Some(token) => ReadToken(Rust, token)
    ensures GoItemFromResponse(item, Page(header, entries, footer))
         == match Lookup(Go, entries, item)
            case None => Failure(NoMatchForItem(item))
            case Some(token) => ReadToken(Go, token)
  {
    ScanNoItemStart(Rust, header, Render(entries, footer), item);
    ScanRendered(Rust, entries, footer, item);
    ScanNoItemStart(Go, header, Render(entries, footer), item);
    ScanRendered(Go, entries, footer, item);
  }

  /** Digits, a point and digits parse to their exact decimal value. */
  lemma ParseFixedPoint(whole: string, fraction: string)
    requires AllDigits(whole) && AllDigits(fraction) && whole != []
    ensures ParseDecimal(whole + "." + fraction) == Some(DecimalValue(whole, fraction))
  {
    var token := whole + "." + fraction;
    var d := |whole|;
    assert token[0] == whole[0];
    assert Unsigned(token) == token;
    assert forall k :: 0 <= k < |token| ==> IsNumeric(token[k]) by {
      forall k | 0 <= k < |token| ensures IsNumeric(token[k]) {
        if k < d { assert token[k] == whole[k]; }
        else if k > d { assert token[k] == fraction[k - d - 1]; }
      }
    }
    assert forall k :: 0 <= k < d ==> token[k] != '.' by {
      forall k | 0 <= k < d ensures token[k] != '.' {
        assert token[k] == whole[k];
      }
    }
    IndexOfIs(token, '.', 0, d);
    assert token[..d] == whole;
    assert token[d + 1..] == fraction;
  }

  // ---------------------------------------------------------------------
  // The pages of the clients' unit tests
  // ---------------------------------------------------------------------

  const ContentOpen: string := "<Content>"

  /** Three of the entries of the "Temperaturen" page, in page order; the
      third has a name that starts with the first one's. */
  const TemperatureEntries: seq<PageEntry> := [
    PageEntry("0x4816ac", "Aanvoer", "22.3°C"),
    PageEntry("0x44fdcc", "Retour", "22.0°C"),
    PageEntry("0x4646b4", "Aanvoer max.", "66.0°C")
  ]

  const TemperatureFooter: string := "<name>Temperaturen</name></Content>"

  /** Five of the entries of the "Ingangen" page, in page order: "HD" appears
      twice, first as a switch state, then as a pressure. */
  const InputEntries: seq<PageEntry> := [
    PageEntry("0x4e7944", "ASD", "Aan"),
    PageEntry("0x4ef3b4", "HD", "Uit"),
    PageEntry("0x4dac64", "MOT", "Aan"),
    PageEntry("0x4e6a3c", "HD", "8.10 bar"),
    PageEntry("0x4ca47c", "ND", "8.38 bar")
  ]

  const InputFooter: string := "<name>Ingangen</name></Content>"

  lemma HeaderWellFormed()
    ensures NoItemStart(ContentOpen)
  {
  }

  lemma FootersWellFormed()
    ensures NoItemStart(TemperatureFooter) && NoItemStart(InputFooter)
  {
  }

  lemma TemperatureEntryPlain(k: nat)
    requires k < |TemperatureEntries|
    ensures PlainEntry(TemperatureEntries[k].id, TemperatureEntries[k].name, TemperatureEntries[k].value)
  {
    var e := TemperatureEntries[k];
    if k == 0 {
      assert e == PageEntry("0x4816ac", "Aanvoer", "22.3°C");
    } else if k == 1 {
      assert e == PageEntry("0x44fdcc", "Retour", "22.0°C");
    } else {
      assert e == PageEntry("0x4646b4", "Aanvoer max.", "66.0°C");
    }
  }

  lemma TemperatureEntriesPlain()
    ensures AllPlain(TemperatureEntries)
  {
    forall k | 0 <= k < |TemperatureEntries|
      ensures PlainEntry(TemperatureEntries[k].id, TemperatureEntries[k].name, TemperatureEntries[k].value)
    {
      TemperatureEntryPlain(k);
    }
  }

  lemma InputEntryPlain(k: nat)
    requires k < |InputEntries|
    ensures PlainEntry(InputEntries[k].id, InputEntries[k].name, InputEntries[k].value)
  {
    var e := InputEntries[k];
    if k == 0 {
      assert e == PageEntry("0x4e7944", "ASD", "Aan");
    } else if k == 1 {
      assert e == PageEntry("0x4ef3b4", "HD", "Uit");
    } else if k == 2 {
      assert e == PageEntry("0x4dac64", "MOT", "Aan");
    } else if k == 3 {
      assert e == PageEntry("0x4e6a3c", "HD", "8.10 bar");
    } else {
      assert e == PageEntry("0x4ca47c", "ND", "8.38 bar");
    }
  }

  lemma InputEntriesPlain()
    ensures AllPlain(InputEntries)
  {
    forall k | 0 <= k < |InputEntries|
      ensures PlainEntry(InputEntries[k].id, InputEntries[k].name, InputEntries[k].value)
    {
      InputEntryPlain(k);
    }
  }

  /** "22.3" parses to 22.3 in both clients. */
  lemma TokenReads223()
    ensures ReadToken(Rust, "22.3") == Success(Extracted("22.3", 22.3))
    ensures ReadToken(Go, "22.3") == Success(Extracted("22.3", 22.3))
  {
    ParseFixedPoint("22", "3");
    assert "22" + "." + "3" == "22.3";
    assert "22"[..1] == "2" && "2"[..0] == [] && "3"[..0] == [];
    assert DecimalValue("22", "3") == 22.3;
  }

  lemma CaptureAanvoer()
    ensures Capture(Rust, "22.3°C") == Some("22.3") && Capture(Go, "22.3°C") == Some("22.3")
  {
    var v := "22.3°C";
    assert NumericRun(v, 4) == 0;
    assert NumericRun(v, 0) == 4;
    assert v[..4] == "22.3";
  }

  lemma LookupAanvoer()
    ensures Lookup(Rust, TemperatureEntries, "Aanvoer") == Some("22.3")
    ensures Lookup(Go, TemperatureEntries, "Aanvoer") == Some("22.3")
  {
    CaptureAanvoer();
    assert TemperatureEntries[0] == PageEntry("0x4816ac", "Aanvoer", "22.3°C");
  }

  /** Aanvoer reads 22.3 from the temperature page in both clients. */
  lemma TestReadsAanvoer()
    ensures ItemFromResponse("Aanvoer", Page(ContentOpen, TemperatureEntries, TemperatureFooter))
         == Success(Extracted("22.3", 22.3))
    ensures GoItemFromResponse("Aanvoer", Page(ContentOpen, TemperatureEntries, TemperatureFooter))
         == Success(Extracted("22.3", 22.3))
  {
    HeaderWellFormed();
    FootersWellFormed();
    TemperatureEntriesPlain();
    ReadersOnPage("Aanvoer", ContentOpen, TemperatureEntries, TemperatureFooter);
    LookupAanvoer();
    TokenReads223();
  }

  /** An item no entry is named after is reported as not matched, by both clients. */
  lemma TestMissingItem()
    ensures ItemFromResponse("BestaatNiet", Page(ContentOpen, TemperatureEntries, TemperatureFooter))
         == Failure(NoMatchForItem("BestaatNiet"))
    ensures GoItemFromResponse("BestaatNiet", Page(ContentOpen, TemperatureEntries, TemperatureFooter))
         == Failure(NoMatchForItem("BestaatNiet"))
  {
    HeaderWellFormed();
    FootersWellFormed();
    TemperatureEntriesPlain();
    ReadersOnPage("BestaatNiet", ContentOpen, TemperatureEntries, TemperatureFooter);
    var es := TemperatureEntries;
    forall k | 0 <= k < |es| ensures es[k].name != "BestaatNiet" {
      assert es[k] == es[0] || es[k] == es[1] || es[k] == es[2];
    }
  }

  lemma CaptureInputs()
    ensures Capture(Rust, "Uit") == None && Capture(Go, "Uit") == Some("")
    ensures Capture(Rust, "8.10 bar") == Some("8.10")
  {
    assert NumericRun("Uit", 0) == 0;
    var v := "8.10 bar";
    assert NumericRun(v, 4) == 0;
    assert NumericRun(v, 0) == 4;
    assert v[..4] == "8.10";
  }

  /** Reading "HD" off the input page: the Rust pattern passes over the
      "Uit" entry and takes the pressure, the Go pattern stops at "Uit" with
      an empty capture. */
  lemma LookupHD()
    ensures Lookup(Rust, InputEntries, "HD") == Some("8.10")
    ensures Lookup(Go, InputEntries, "HD") == Some("")
  {
    var es := InputEntries;
    CaptureInputs();
    assert es[3..][0] == es[3] == PageEntry("0x4e6a3c", "HD", "8.10 bar");
    assert es[2..][1..] == es[3..] && es[2..][0] == es[2];
    assert es[1..][1..] == es[2..] && es[1..][0] == es[1];
    assert es[1] == PageEntry("0x4ef3b4", "HD", "Uit");
    assert Lookup(Rust, es[3..], "HD") == Some("8.10");
    assert Lookup(Rust, es[2..], "HD") == Some("8.10");
    assert Lookup(Rust, es[1..], "HD") == Some("8.10");
    assert Lookup(Go, es[1..], "HD") == Some("");
  }

  lemma TokenReads810()
    ensures ReadToken(Rust, "8.10") == Success(Extracted("8.10", 8.1))
    ensures ReadToken(Go, "") == Failure(ValueNotParsed(""))
  {
    ParseFixedPoint("8", "10");
    assert "8" + "." + "10" == "8.10";
    assert "10"[..1] == "1" && "1"[..0] == [] && "8"[..0] == [];
    assert DigitsValue("1") == 1;
    assert DigitsValue("10") == 10;
    assert DigitsValue("8") == 8;
    assert Pow10(2) == 100;
    assert DecimalValue("8", "10") == 8.1;
  }

  /** The pressure test: the Rust client reads 8.1 for "HD"; the Go client
      fails on the earlier "Uit" entry, which its pattern matches with an
      empty capture. */
  lemma TestReadsPressure()
    ensures ItemFromResponse("HD", Page(ContentOpen, InputEntries, InputFooter)) == Success(Extracted("8.10", 8.1))
    ensures GoItemFromResponse("HD", Page(ContentOpen, InputEntries, InputFooter)) == Failure(ValueNotParsed(""))
  {
    HeaderWellFormed();
    FootersWellFormed();
    InputEntriesPlain();
    ReadersOnPage("HD", ContentOpen, InputEntries, InputFooter);
    LookupHD();
    TokenReads810();
  }
}
