/** The text layer of the NPY header: printing the dictionary and parsing it back. */
module NpyModel {
  import opened Dram

  // ----- strings -----

  predicate IsBlank(c: char) {
    c == ' ' || c == '\t'
  }

  function TrimLeft(s: string): string {
    if s != "" && IsBlank(s[0]) then TrimLeft(s[1..]) else s
  }

  function TrimRight(s: string): string {
    if s != "" && IsBlank(s[|s| - 1]) then TrimRight(s[..|s| - 1]) else s
  }

  function Trim(s: string): string {
    TrimRight(TrimLeft(s))
  }

  predicate OccursAt(s: string, pattern: string, i: nat) {
    i + |pattern| <= |s| && s[i..i + |pattern|] == pattern
  }

  /** The first occurrence from i on. */
  function FindFrom(s: string, pattern: string, i: nat): (at: Option<nat>)
    requires i <= |s|
    ensures at.Some? ==> OccursAt(s, pattern, at.value)
    decreases |s| - i
  {
    if OccursAt(s, pattern, i) then Some(i) else if i == |s| then None else FindFrom(s, pattern, i + 1)
  }

  function Find(s: string, pattern: string): (at: Option<nat>)
    ensures at.Some? ==> OccursAt(s, pattern, at.value)
  {
    FindFrom(s, pattern, 0)
  }

  lemma {:induction false} FoundFirst(s: string, pattern: string, i: nat, at: nat)
    requires i <= at <= |s| && OccursAt(s, pattern, at)
    requires forall k :: i <= k < at ==> !OccursAt(s, pattern, k)
    ensures FindFrom(s, pattern, i) == Some(at)
    decreases at - i
  {
    if i < at {
      assert !OccursAt(s, pattern, i);
      FoundFirst(s, pattern, i + 1, at);
    }
  }

  function Blanks(n: nat): (s: string)
    ensures |s| == n
  {
    seq(n, _ => ' ')
  }

  lemma {:induction false} TrimRightDrops(core: string, n: nat)
    requires core != "" && !IsBlank(core[|core| - 1])
    ensures TrimRight(core + Blanks(n)) == core
  {
    if n == 0 {
      assert core + Blanks(0) == core;
    } else {
      assert (core + Blanks(n))[..|core| + n - 1] == core + Blanks(n - 1);
      TrimRightDrops(core, n - 1);
    }
  }

  lemma TrimCore(core: string, n: nat)
    requires core != "" && !IsBlank(core[0]) && !IsBlank(core[|core| - 1])
    ensures Trim(core + Blanks(n)) == core && Trim(core) == core && Trim(" " + core) == core
  {
    TrimRightDrops(core, n);
    TrimRightDrops(core, 0);
    assert core + Blanks(0) == core;
    assert (" " + core)[1..] == core;
  }

  // ----- numbers -----

  predicate IsDigit(c: char) {
    '0' <= c <= '9'
  }

  function DigitChar(d: nat): char
    requires d < 10
  {
    '0' + d as char
  }

  function DigitValue(c: char): (d: nat)
    requires IsDigit(c)
    ensures d < 10
  {
    (c - '0') as nat
  }

  /** How a stream prints an unsigned number. */
  function Decimal(n: nat): (s: string)
    ensures s != "" && forall i :: 0 <= i < |s| ==> IsDigit(s[i])
  {
    if n < 10 then [DigitChar(n)] else Decimal(n / 10) + [DigitChar(n % 10)]
  }

  function LeadingDigits(s: string): (k: nat)
    ensures k <= |s| && forall i :: 0 <= i < k ==> IsDigit(s[i])
  {
    if s != "" && IsDigit(s[0]) then 1 + LeadingDigits(s[1..]) else 0
  }

  function NumberOf(digits: string): nat
    requires forall i :: 0 <= i < |digits| ==> IsDigit(digits[i])
  {
    if digits == "" then 0 else NumberOf(digits[..|digits| - 1]) * 10 + DigitValue(digits[|digits| - 1])
  }

  const ULONG := 0x1_0000_0000_0000_0000

  predicate IsSpace(c: char) {
    c == ' ' || '\t' <= c <= '\r'
  }

  function SkipSpace(s: string): string {
    if s != "" && IsSpace(s[0]) then SkipSpace(s[1..]) else s
  }

  /** std::stoul: white space, a sign, digits; None for its exceptions. A minus sign wraps around. */
  function Stoul(s: string): Option<nat> {
    var t := SkipSpace(s);
    var minus := t != "" && t[0] == '-';
    var u := if minus || (t != "" && t[0] == '+') then t[1..] else t;
    var k := LeadingDigits(u);
    if k == 0 then None
    else
      var n := NumberOf(u[..k]);
      if n >= ULONG then None else Some(if minus && n > 0 then ULONG - n else n)
  }

  lemma {:induction false} DecimalIsRead(n: nat)
    ensures NumberOf(Decimal(n)) == n
  {
    if n >= 10 {
      DecimalIsRead(n / 10);
      assert Decimal(n)[..|Decimal(n)| - 1] == Decimal(n / 10);
    }
  }

  lemma {:induction false} AllDigits(s: string)
    requires forall i :: 0 <= i < |s| ==> IsDigit(s[i])
    ensures LeadingDigits(s) == |s|
  {
    if s != "" {
      assert forall i :: 0 <= i < |s[1..]| ==> s[1..][i] == s[i + 1];
      AllDigits(s[1..]);
    }
  }

  lemma StoulReadsDecimal(n: nat)
    requires n < ULONG
    ensures Stoul(Decimal(n)) == Some(n) && Stoul(" " + Decimal(n)) == Some(n)
  {
    var s := Decimal(n);
    assert IsDigit(s[0]);
    DecimalIsRead(n);
    AllDigits(s);
    assert s[..|s|] == s && (" " + s)[1..] == s;
    assert SkipSpace(s) == s && SkipSpace(" " + s) == s;
  }

  /** The white space that comes before a number: space, tab, line feed, vertical tab, form feed, return. */
  ghost predicate AllWhite(s: string) {
    forall i :: 0 <= i < |s| ==> s[i] in {' ', '\t', '\n', '\U{0B}', '\U{0C}', '\r'}
  }

  lemma {:induction false} WhiteIsSkipped(white: string, s: string)
    requires AllWhite(white) && s != "" && (IsDigit(s[0]) || s[0] == '+' || s[0] == '-')
    ensures SkipSpace(white + s) == s
  {
    if white == "" {
      assert white + s == s;
    } else {
      assert (white + s)[1..] == white[1..] + s;
      WhiteIsSkipped(white[1..], s);
    }
  }

  lemma {:induction false} DigitsLead(digits: string, rest: string)
    requires forall i :: 0 <= i < |digits| ==> IsDigit(digits[i])
    requires rest != "" ==> !IsDigit(rest[0])
    ensures LeadingDigits(digits + rest) == |digits| && (digits + rest)[..|digits|] == digits
  {
    if digits == "" {
      assert digits + rest == rest;
    } else {
      assert (digits + rest)[1..] == digits[1..] + rest;
      DigitsLead(digits[1..], rest);
    }
  }

  /** White space and one sign may come before a number and anything but a digit after it; a minus wraps around. */
  lemma StoulReadsNumber(white: string, sign: string, n: nat, rest: string)
    requires AllWhite(white) && sign in {"", "+", "-"} && (rest != "" ==> !IsDigit(rest[0]))
    ensures Stoul(white + (sign + (Decimal(n) + rest))) ==
              if n >= 0x1_0000_0000_0000_0000 then None
              else if sign == "-" && n > 0 then Some(0x1_0000_0000_0000_0000 - n) else Some(n)
  {
    var u := Decimal(n) + rest;
    var t := sign + u;
    assert u[0] == Decimal(n)[0];
    WhiteIsSkipped(white, t);
    assert sign == "" ==> t == u;
    assert sign != "" ==> t[0] == sign[0] && t[1..] == u;
    DecimalIsRead(n);
    DigitsLead(Decimal(n), rest);
  }

  // ----- tuples -----

  predicate NoComma(s: string) {
    forall i :: 0 <= i < |s| ==> s[i] != ','
  }

  function CommaFrom(s: string, i: nat): (k: nat)
    requires i <= |s|
    ensures i <= k <= |s| && (k < |s| ==> s[k] == ',') && forall j :: i <= j < k ==> s[j] != ','
    decreases |s| - i
  {
    if i == |s| || s[i] == ',' then i else CommaFrom(s, i + 1)
  }

  /** The tokens std::getline yields with a comma as delimiter: nothing follows a last comma. */
  function Tokens(s: string): seq<string> {
    if s == "" then []
    else
      var k := CommaFrom(s, 0);
      if k == |s| then [s] else [s[..k]] + Tokens(s[k + 1..])
  }

  datatype Error = NotADictionary | MissingKey | InvalidTypestring | InvalidString | InvalidBoolean | InvalidTuple
                 | InvalidNumber | InvalidHeader

  function TupleItems(text: string): Result<seq<string>, Error> {
    var t := Trim(text);
    if |t| >= 2 && t[0] == '(' && t[|t| - 1] == ')' then Success(Tokens(t[1..|t| - 1])) else Failure(InvalidTuple)
  }

  method ParseTuple(text: string) returns (r: Result<seq<string>, Error>)
    ensures r == TupleItems(text)
  {
    var t := Trim(text);
    if !(|t| >= 2 && t[0] == '(' && t[|t| - 1] == ')') {
      return Failure(InvalidTuple);
    }
    var rest := t[1..|t| - 1];
    var items := [];
    while rest != ""
      invariant Tokens(t[1..|t| - 1]) == items + Tokens(rest)
      decreases |rest|
    {
      var k := CommaFrom(rest, 0);
      if k == |rest| {
        items := items + [rest];
        rest := "";
      } else {
        items := items + [rest[..k]];
        rest := rest[k + 1..];
      }
    }
    assert items + [] == items;
    return Success(items);
  }

  /** The elements from k on, with the delimiter between them. */
  function Joined(v: seq<nat>, k: nat): (s: string)
    requires k < |v|
    ensures s != "" && IsDigit(s[0])
    decreases |v| - k
  {
    if k + 1 == |v| then Decimal(v[k]) else Decimal(v[k]) + ", " + Joined(v, k + 1)
  }

  function TupleText(v: seq<nat>): string {
    if v == [] then ""
    else if |v| == 1 then "(" + Decimal(v[0]) + ",)"
    else "(" + Joined(v, 0) + ")"
  }

  method WriteTuple(v: seq<nat>) returns (s: string)
    ensures s == TupleText(v)
  {
    if |v| == 0 {
      return "";
    }
    if |v| == 1 {
      return "(" + Decimal(v[0]) + ",)";
    }
    var body := "";
    for i := 0 to |v| - 1
      invariant body + Joined(v, i) == Joined(v, 0)
    {
      OneMoreJoined(v, i, body);
      body := body + Decimal(v[i]) + ", ";
    }
    s := "(" + body + Decimal(v[|v| - 1]) + ")";
    assert s == "(" + (body + Decimal(v[|v| - 1])) + ")";
  }

  lemma OneMoreJoined(v: seq<nat>, i: nat, body: string)
    requires i + 1 < |v|
    ensures (body + Decimal(v[i]) + ", ") + Joined(v, i + 1) == body + Joined(v, i)
  {
    assert Joined(v, i) == Decimal(v[i]) + (", " + Joined(v, i + 1));
  }

  /** The items from k on as they come out of a printed tuple: each after a space. */
  function Items(v: seq<nat>, k: nat): (items: seq<string>)
    requires k <= |v|
    ensures |items| == |v| - k
    decreases |v| - k
  {
    if k == |v| then [] else [" " + Decimal(v[k])] + Items(v, k + 1)
  }

  lemma FirstComma(x: string, y: string)
    requires NoComma(x)
    ensures CommaFrom(x + "," + y, 0) == |x|
  {
    var s := x + "," + y;
    assert s[|x|] == ',';
    assert forall i :: 0 <= i < |x| ==> s[i] == x[i];
  }

  lemma TokenBeforeComma(x: string, y: string)
    requires NoComma(x)
    ensures Tokens(x + "," + y) == [x] + Tokens(y)
  {
    FirstComma(x, y);
    var s := x + "," + y;
    assert s[..|x|] == x && s[|x| + 1..] == y;
  }

  lemma LastToken(x: string)
    requires NoComma(x) && x != ""
    ensures Tokens(x) == [x]
  {
    assert CommaFrom(x, 0) == |x|;
  }

  lemma {:induction false} TokensOfJoined(v: seq<nat>, k: nat, lead: string)
    requires k < |v| && NoComma(lead)
    ensures Tokens(lead + Joined(v, k)) == [lead + Decimal(v[k])] + Items(v, k + 1)
    decreases |v| - k
  {
    var x := lead + Decimal(v[k]);
    assert NoComma(x);
    if k + 1 == |v| {
      LastToken(x);
    } else {
      assert lead + Joined(v, k) == x + "," + (" " + Joined(v, k + 1));
      TokenBeforeComma(x, " " + Joined(v, k + 1));
      TokensOfJoined(v, k + 1, " ");
    }
  }

  lemma InnerTokens(inner: string)
    ensures TupleItems("(" + inner + ")") == Success(Tokens(inner))
  {
    var text := "(" + inner + ")";
    assert text[0] == '(' && text[|text| - 1] == ')' && text[1..|text| - 1] == inner;
    TrimCore(text, 0);
  }

  /** Splitting a printed tuple gives its items, the first without a space; a single element as well. */
  lemma TupleIsSplit(v: seq<nat>)
    requires v != []
    ensures TupleItems(TupleText(v)) == Success([Decimal(v[0])] + Items(v, 1))
  {
    if |v| == 1 {
      TokenBeforeComma(Decimal(v[0]), "");
      InnerTokens(Decimal(v[0]) + "," + "");
      assert TupleText(v) == "(" + (Decimal(v[0]) + "," + "") + ")";
    } else {
      TokensOfJoined(v, 0, "");
      InnerTokens("" + Joined(v, 0));
      assert "" + Joined(v, 0) == Joined(v, 0) && "" + Decimal(v[0]) == Decimal(v[0]);
    }
  }

  function Numbers(items: seq<string>): Result<seq<nat>, Error> {
    if items == [] then Success([])
    else
      var first := Stoul(items[0]);
      if first.None? then Failure(InvalidNumber)
      else
        var rest :- Numbers(items[1..]);
        Success([first.value] + rest)
  }

  lemma {:induction false} ItemsAreRead(v: seq<nat>, k: nat)
    requires k <= |v| && forall i :: 0 <= i < |v| ==> v[i] < ULONG
    ensures Numbers(Items(v, k)) == Success(v[k..])
    decreases |v| - k
  {
    if k < |v| {
      hide *;
      ItemsAreRead(v, k + 1);
      StoulReadsDecimal(v[k]);
      FirstItem(v, k, " " + Decimal(v[k]));
      OneItemMore(" " + Decimal(v[k]), v[k], Items(v, k + 1), v[k + 1..]);
    } else {
      assert v[k..] == [];
    }
  }

  lemma FirstItem(v: seq<nat>, k: nat, item: string)
    requires k < |v| && item == " " + Decimal(v[k])
    ensures Items(v, k) == [item] + Items(v, k + 1) && v[k..] == [v[k]] + v[k + 1..]
  {
  }

  lemma OneItemMore(item: string, n: nat, items: seq<string>, numbers: seq<nat>)
    requires Stoul(item) == Some(n) && Numbers(items) == Success(numbers)
    ensures Numbers([item] + items) == Success([n] + numbers)
  {
    hide Stoul;
    assert ([item] + items)[1..] == items;
  }

  // ----- the dictionary -----

  function ParseBool(text: string): Result<bool, Error> {
    if text == "True" then Success(true) else if text == "False" then Success(false) else Failure(InvalidBoolean)
  }

  function BoolText(b: bool): string {
    if b then "True" else "False"
  }

  /** A quoted string without its quotes; a lone quote counts as both. */
  function ParseStr(text: string): Result<string, Error> {
    if text != "" && text[0] == '\'' && text[|text| - 1] == '\'' then
      Success(if |text| == 1 then "" else text[1..|text| - 1])
    else Failure(InvalidString)
  }

  /** '([<>|])([ifuc])(\d+)' including the quotes. */
  predicate IsTypestring(text: string) {
    && |text| >= 5 && text[0] == '\'' && text[|text| - 1] == '\''
    && (text[1] == '<' || text[1] == '>' || text[1] == '|')
    && (text[2] == 'i' || text[2] == 'f' || text[2] == 'u' || text[2] == 'c')
    && forall i :: 3 <= i < |text| - 1 ==> IsDigit(text[i])
  }

  function ValueFromMap(mapText: string): string {
    var colon := Find(mapText, ":");
    if colon.None? then "" else Trim(mapText[colon.value + 1..])
  }

  function WithoutComma(s: string): string {
    if s != "" && s[|s| - 1] == ',' then s[..|s| - 1] else s
  }

  const KEYS := ["descr", "fortran_order", "shape"]

  function Quoted(key: string): string {
    "'" + key + "'"
  }

  /** Where each key is first found. */
  function KeyPositions(text: string, keys: seq<string>): Result<seq<(nat, string)>, Error> {
    if keys == [] then Success([])
    else
      var before :- KeyPositions(text, keys[..|keys| - 1]);
      var at := Find(text, Quoted(keys[|keys| - 1]));
      if at.None? then Failure(MissingKey) else Success(before + [(at.value, keys[|keys| - 1])])
  }

  function Inserted(p: (nat, string), sorted: seq<(nat, string)>): seq<(nat, string)> {
    if sorted == [] || p.0 < sorted[0].0 then [p] + sorted else [sorted[0]] + Inserted(p, sorted[1..])
  }

  function Sorted(ps: seq<(nat, string)>): seq<(nat, string)> {
    if ps == [] then [] else Inserted(ps[|ps| - 1], Sorted(ps[..|ps| - 1]))
  }

  /** The text from one key to the next, trimmed, without its comma, after its colon. */
  function RawValue(text: string, ps: seq<(nat, string)>, i: nat): string
    requires i < |ps|
  {
    var begin := ps[i].0;
    var end := if i + 1 < |ps| then ps[i + 1].0 else |text|;
    if begin <= end <= |text| then ValueFromMap(WithoutComma(Trim(text[begin..end]))) else ""
  }

  function Values(text: string, ps: seq<(nat, string)>, n: nat): map<string, string>
    requires n <= |ps|
  {
    if n == 0 then map[] else Values(text, ps, n - 1)[ps[n - 1].1 := RawValue(text, ps, n - 1)]
  }

  function Dictionary(text: string, keys: seq<string>): Result<map<string, string>, Error> {
    if keys == [] then Success(map[])
    else
      var t := Trim(text);
      if |t| >= 2 && t[0] == '{' && t[|t| - 1] == '}' then
        var inner := t[1..|t| - 1];
        var ps :- KeyPositions(inner, keys);
        Success(Values(inner, Sorted(ps), |Sorted(ps)|))
      else Failure(NotADictionary)
  }

  method ParseDict(text: string, keys: seq<string>) returns (r: Result<map<string, string>, Error>)
    ensures r == Dictionary(text, keys)
  {
    if |keys| == 0 {
      return Success(map[]);
    }
    var t := Trim(text);
    if !(|t| >= 2 && t[0] == '{' && t[|t| - 1] == '}') {
      return Failure(NotADictionary);
    }
    var inner := t[1..|t| - 1];
    var positions := [];
    for i := 0 to |keys|
      invariant KeyPositions(inner, keys[..i]) == Success(positions)
    {
      assert keys[..i + 1][..i] == keys[..i];
      var at := Find(inner, Quoted(keys[i]));
      if at.None? {
        MissingEarly(inner, keys, i + 1);
        return Failure(MissingKey);
      }
      positions := positions + [(at.value, keys[i])];
    }
    assert keys[..|keys|] == keys;
    var ps := Sorted(positions);
    var dict: map<string, string> := map[];
    for i := 0 to |ps|
      invariant dict == Values(inner, ps, i)
    {
      dict := dict[ps[i].1 := RawValue(inner, ps, i)];
    }
    return Success(dict);
  }

  lemma {:induction false} MissingEarly(text: string, keys: seq<string>, n: nat)
    requires n <= |keys| && KeyPositions(text, keys[..n]) == Failure(MissingKey)
    ensures KeyPositions(text, keys) == Failure(MissingKey)
    decreases |keys| - n
  {
    if n == |keys| {
      assert keys[..n] == keys;
    } else {
      assert keys[..n + 1][..n] == keys[..n];
      MissingEarly(text, keys, n + 1);
    }
  }

  // ----- the header -----

  function Lookup(dict: map<string, string>, key: string): string {
    if key in dict then dict[key] else ""
  }

  datatype Header = Header(descr: string, fortranOrder: bool, shape: seq<nat>)

  function ParsedHeader(text: string): Result<Header, Error> {
    if text == "" || text[|text| - 1] != '\n' then Failure(InvalidHeader)
    else
      var dict :- Dictionary(text[..|text| - 1], KEYS);
      HeaderOf(Lookup(dict, "descr"), Lookup(dict, "fortran_order"), Lookup(dict, "shape"))
  }

  function HeaderOf(descrText: string, fortranText: string, shapeText: string): Result<Header, Error> {
    if !IsTypestring(descrText) then Failure(InvalidTypestring)
    else
      var descr :- ParseStr(descrText);
      var fortran :- ParseBool(fortranText);
      var items :- TupleItems(shapeText);
      if items == [] then Failure(InvalidTuple)
      else
        var shape :- Numbers(items);
        Success(Header(descr, fortran, shape))
  }

  /** The dictionary as it is printed. */
  function HeaderText(h: Header): string {
    "{'descr': '" + h.descr + "', 'fortran_order': " + BoolText(h.fortranOrder)
    + ", 'shape': " + TupleText(h.shape) + ", }"
  }

  /** The entry of one key in the printed dictionary. */
  function Entry(key: string, value: string): string {
    Quoted(key) + ": " + value + ", "
  }

  lemma HeaderTextIs(h: Header)
    ensures HeaderText(h) == "{" + (Entry("descr", Quoted(h.descr)) + Entry("fortran_order", BoolText(h.fortranOrder))
                                    + Entry("shape", TupleText(h.shape))) + "}"
  {
    var d, f, t := h.descr, BoolText(h.fortranOrder), TupleText(h.shape);
    hide BoolText, TupleText;
    assert "{'descr': '" == "{" + Quoted("descr") + ": '";
    assert "', 'fortran_order': " == "', " + Quoted("fortran_order") + ": ";
    assert ", 'shape': " == ", " + Quoted("shape") + ": ";
    hide Quoted;
    Regrouped("{", Quoted("descr"), d, Quoted("fortran_order"), f, Quoted("shape"), t);
    assert Quoted(d) == "'" + d + "'" by { QuotedIs(d); }
  }

  /** How the two orders, a shape of two dimensions and one of one dimension are printed. */
  lemma PrintedHeaders(descr: string)
    ensures HeaderText(Header(descr, false, [3, 45]))
         == "{'descr': '" + descr + "', 'fortran_order': " + "False" + ", 'shape': " + "(3, 45)" + ", }"
    ensures HeaderText(Header(descr, true, [607]))
         == "{'descr': '" + descr + "', 'fortran_order': " + "True" + ", 'shape': " + "(607,)" + ", }"
  {
    assert Decimal(60) == "60" && Decimal(607) == "607" && Decimal(3) == "3" && Decimal(45) == "45";
    assert Joined([3, 45], 1) == "45";
    assert Joined([3, 45], 0) == "3, 45";
    assert TupleText([3, 45]) == "(3, 45)" && TupleText([607]) == "(607,)";
  }

  /** Types that are accepted: byte order, kind, and a size of at least one digit. */
  lemma TypesAccepted(d: string)
    ensures IsTypestring("'" + d + "'") <==>
              && |d| >= 3 && d[0] in {'<', '>', '|'} && d[1] in {'i', 'f', 'u', 'c'}
              && forall i :: 2 <= i < |d| ==> '0' <= d[i] <= '9'
  {
    var text := "'" + d + "'";
    assert forall i :: 0 <= i < |d| ==> text[i + 1] == d[i];
    assert |d| >= 3 ==> forall i :: 2 <= i < |d| ==> d[i] == text[i + 1];
    if |d| >= 3 && (forall i :: 2 <= i < |d| ==> '0' <= d[i] <= '9') {
      forall i | 3 <= i < |text| - 1
        ensures IsDigit(text[i])
      {
        assert text[i] == d[i - 1];
      }
    }
  }

  lemma QuotedIs(d: string)
    ensures Quoted(d) == "'" + d + "'"
  {
  }

  lemma Regrouped(o: string, k0: string, d: string, k1: string, f: string, k2: string, t: string)
    ensures o + k0 + ": '" + d + ("', " + k1 + ": ") + f + (", " + k2 + ": ") + t + ", }"
         == o + ((k0 + ": " + ("'" + d + "'") + ", ") + (k1 + ": " + f + ", ") + (k2 + ": " + t + ", ")) + "}"
  {
  }

  // ----- finding the keys -----

  predicate NoQuote(s: string) {
    forall i :: 0 <= i < |s| ==> s[i] != '\''
  }

  /** Nowhere does a quote stand before c. */
  predicate Clean(s: string, c: char) {
    forall i, j :: 0 <= i && j == i + 1 < |s| && s[i] == '\'' ==> s[j] != c
  }

  lemma CleanTogether(a: string, b: string, c: char)
    requires Clean(a, c) && Clean(b, c) && (a != "" && b != "" && a[|a| - 1] == '\'' ==> b[0] != c)
    ensures Clean(a + b, c)
  {
    var s := a + b;
    forall i, j | 0 <= i && j == i + 1 < |s| && s[i] == '\'' ensures s[j] != c {
      if j < |a| {
        assert a[i] == '\'' && a[j] == s[j];
      } else if i >= |a| {
        assert b[i - |a|] == '\'' && b[j - |a|] == s[j];
      }
    }
  }

  lemma QuotedIsClean(key: string, c: char)
    requires NoQuote(key) && key != "" && key[0] != c && c != '\''
    ensures Clean(Quoted(key), c)
  {
    var s := Quoted(key);
    assert s[0] == '\'' && s[1] == key[0];
    assert forall i :: 0 <= i < |key| ==> s[i + 1] == key[i];
  }

  lemma EntryIsClean(key: string, value: string, c: char)
    requires NoQuote(key) && key != "" && key[0] != c && Clean(value, c) && c != '\'' && c != ':' && c != ','
    ensures Clean(Entry(key, value), c)
  {
    QuotedIsClean(key, c);
    CleanTogether(Quoted(key), ": ", c);
    CleanTogether(Quoted(key) + ": ", value, c);
    CleanTogether(Quoted(key) + ": " + value, ", ", c);
  }

  lemma OccurrenceStarts(s: string, q: string, k: nat)
    ensures OccursAt(s, q, k) ==>
              (|q| > 0 ==> s[k] == q[0]) && (|q| > 1 ==> s[k + 1] == q[1])
  {
  }

  lemma KeyIsFound(before: string, key: string, after: string)
    requires key != "" && Clean(before, key[0]) && (before != "" ==> before[|before| - 1] != '\'')
    ensures Find(before + Quoted(key) + after, Quoted(key)) == Some(|before|)
  {
    var s, q := before + Quoted(key) + after, Quoted(key);
    assert s[|before|..|before| + |q|] == q;
    forall k | 0 <= k < |before| ensures !OccursAt(s, q, k) {
      OccurrenceStarts(s, q, k);
      assert s[k] == before[k] && (k + 1 < |before| ==> s[k + 1] == before[k + 1]);
    }
    FoundFirst(s, q, 0, |before|);
  }

  /** From an entry's text, its value. */
  lemma EntryGivesValue(key: string, value: string)
    requires NoQuote(key) && key != "" && forall i :: 0 <= i < |key| ==> key[i] != ':'
    requires value != "" ==> !IsBlank(value[0]) && !IsBlank(value[|value| - 1])
    ensures ValueFromMap(WithoutComma(Trim(Entry(key, value)))) == value
  {
    EntryIsTrimmed(key, value);
    var text := Quoted(key) + ": " + value;
    assert " "[1..] == "" && Trim(" ") == "";
    hide Trim, TrimRight, TrimLeft, WithoutComma, Entry;
    ColonIsFound(key, " " + value);
    assert text == Quoted(key) + ":" + (" " + value);
    assert text[|Quoted(key)| + 1..] == " " + value;
    if value == "" { assert " " + value == " "; } else { TrimCore(value, 0); }
  }

  lemma EntryIsTrimmed(key: string, value: string)
    ensures WithoutComma(Trim(Entry(key, value))) == Quoted(key) + ": " + value
  {
    var core := Quoted(key) + ": " + value + ",";
    assert Entry(key, value) == core + Blanks(1);
    assert core[0] == '\'' && core[|core| - 1] == ',';
    TrimCore(core, 1);
  }

  lemma ColonIsFound(key: string, after: string)
    requires forall i :: 0 <= i < |key| ==> key[i] != ':'
    ensures Find(Quoted(key) + ":" + after, ":") == Some(|Quoted(key)|)
  {
    var s, n := Quoted(key) + ":" + after, |Quoted(key)|;
    assert s[n..n + 1] == ":";
    forall k | 0 <= k < n ensures !OccursAt(s, ":", k) {
      assert s[k] == Quoted(key)[k] != ':';
      OccurrenceStarts(s, ":", k);
    }
    FoundFirst(s, ":", 0, n);
  }

  // ----- the round trip -----

  /** The typestrings the library writes and accepts. */
  predicate Supported(h: Header) {
    IsTypestring(Quoted(h.descr)) && forall i :: 0 <= i < |h.shape| ==> h.shape[i] < ULONG
  }

  lemma {:induction false} JoinedIsPlain(v: seq<nat>, k: nat)
    requires k < |v|
    ensures NoQuote(Joined(v, k)) && !IsBlank(Joined(v, k)[0])
    decreases |v| - k
  {
    if k + 1 < |v| { JoinedIsPlain(v, k + 1); }
  }

  lemma TupleIsPlain(v: seq<nat>)
    ensures NoQuote(TupleText(v))
    ensures v != [] ==> TupleText(v) != "" && TupleText(v)[0] == '(' && TupleText(v)[|TupleText(v)| - 1] == ')'
  {
    if |v| > 1 { JoinedIsPlain(v, 0); }
  }

  /** The three entries and where they begin. */
  lemma KeysAreFound(d: string, f: string, t: string)
    requires |d| >= 2 && NoQuote(d) && d[0] != 'f' && d[0] != 's' && NoQuote(f)
    ensures var a, b, c := Entry("descr", Quoted(d)), Entry("fortran_order", f), Entry("shape", t);
            && Find(a + b + c, Quoted("descr")) == Some(0)
            && Find(a + b + c, Quoted("fortran_order")) == Some(|a|)
            && Find(a + b + c, Quoted("shape")) == Some(|a| + |b|)
  {
    var a, b, c := Entry("descr", Quoted(d)), Entry("fortran_order", f), Entry("shape", t);
    QuotedIsClean(d, 'f');
    QuotedIsClean(d, 's');
    EntryIsClean("descr", Quoted(d), 'f');
    EntryIsClean("descr", Quoted(d), 's');
    EntryIsClean("fortran_order", f, 's');
    CleanTogether(a, b, 's');
    assert a[|a| - 1] == ' ' && b[|b| - 1] == ' ' && (a + b)[|a + b| - 1] == ' ';
    hide Entry, Quoted, Clean, Find;
    KeyInEntry("", "descr", Quoted(d), b + c);
    KeyInEntry(a, "fortran_order", f, c);
    KeyInEntry(a + b, "shape", t, "");
    Appends(a, b, c);
  }

  lemma Appends(a: string, b: string, c: string)
    ensures "" + a + (b + c) == a + b + c && (a + b) + c + "" == a + b + c && |a + b| == |a| + |b|
  {
  }

  lemma KeyInEntry(before: string, key: string, value: string, after: string)
    requires key != "" && Clean(before, key[0]) && (before != "" ==> before[|before| - 1] != '\'')
    ensures Find(before + Entry(key, value) + after, Quoted(key)) == Some(|before|)
  {
    EntrySplits(key, value, before, after);
    hide Entry, Quoted, Clean, Find;
    KeyIsFound(before, key, ": " + value + ", " + after);
  }

  lemma EntrySplits(key: string, value: string, before: string, after: string)
    ensures before + Entry(key, value) + after == before + Quoted(key) + (": " + value + ", " + after)
  {
  }

  function Places(a: nat, b: nat): seq<(nat, string)> {
    [(0, "descr"), (a, "fortran_order"), (a + b, "shape")]
  }

  lemma PlacesOfKeys(text: string, a: nat, b: nat)
    requires Find(text, Quoted("descr")) == Some(0) && Find(text, Quoted("fortran_order")) == Some(a)
    requires Find(text, Quoted("shape")) == Some(a + b)
    ensures KeyPositions(text, KEYS) == Success(Places(a, b))
  {
    hide Find, Quoted;
    var one: seq<string>, two: seq<string> := ["descr"], ["descr", "fortran_order"];
    assert [] + ["descr"] == one && one + ["fortran_order"] == two && two + ["shape"] == KEYS;
    assert [] + [(0, "descr")] == [(0, "descr")];
    assert [(0, "descr")] + [(a, "fortran_order")] == [(0, "descr"), (a, "fortran_order")];
    assert [(0, "descr"), (a, "fortran_order")] + [(a + b, "shape")] == Places(a, b);
    NextPosition(text, [], [], "descr", 0);
    NextPosition(text, one, [(0, "descr")], "fortran_order", a);
    NextPosition(text, two, [(0, "descr"), (a, "fortran_order")], "shape", a + b);
  }

  lemma NextPosition(text: string, keys: seq<string>, ps: seq<(nat, string)>, key: string, at: nat)
    requires KeyPositions(text, keys) == Success(ps) && Find(text, Quoted(key)) == Some(at)
    ensures KeyPositions(text, keys + [key]) == Success(ps + [(at, key)])
  {
    hide Find, Quoted;
    assert (keys + [key])[..|keys|] == keys;
  }

  lemma PlacesAreSorted(a: nat, b: nat)
    requires a > 0 && b > 0
    ensures Sorted(Places(a, b)) == Places(a, b)
  {
    var p: (nat, string), q: (nat, string), r: (nat, string) := (0, "descr"), (a, "fortran_order"), (a + b, "shape");
    assert [p][..0] == [] && Sorted([]) == [] && Sorted([p]) == [p];
    assert [p, q][..1] == [p] && [p][1..] == [] && Inserted(q, []) == [q] && Inserted(q, [p]) == [p, q];
    assert Sorted([p, q]) == [p, q];
    assert [p, q, r][..2] == [p, q] && [p, q][1..] == [q] && [q][1..] == [] && Inserted(r, []) == [r];
    assert Inserted(r, [q]) == [q, r] && Inserted(r, [p, q]) == [p, q, r];
  }

  lemma ValuesOfPlaces(a: string, b: string, c: string)
    requires a != "" && b != ""
    ensures var text, ps := a + b + c, Places(|a|, |b|);
            Values(text, ps, 3) == map["descr" := ValueFromMap(WithoutComma(Trim(a))),
                                       "fortran_order" := ValueFromMap(WithoutComma(Trim(b))),
                                       "shape" := ValueFromMap(WithoutComma(Trim(c)))]
  {
    hide ValueFromMap, WithoutComma, Trim;
    var text, ps := a + b + c, Places(|a|, |b|);
    assert text[0..|a|] == a && text[|a|..|a| + |b|] == b && text[|a| + |b|..|text|] == c;
    assert Values(text, ps, 0) == map[] && Values(text, ps, 1) == map["descr" := RawValue(text, ps, 0)];
    assert Values(text, ps, 2) == map["descr" := RawValue(text, ps, 0), "fortran_order" := RawValue(text, ps, 1)];
  }

  /** Parsing the printed dictionary, whatever spaces follow it, gives the three printed values. */
  lemma DictionaryIsParsed(d: string, f: string, t: string, padding: nat)
    requires |d| >= 2 && NoQuote(d) && d[0] != 'f' && d[0] != 's'
    requires NoQuote(f) && f != "" && !IsBlank(f[0]) && !IsBlank(f[|f| - 1])
    requires t != "" ==> !IsBlank(t[0]) && !IsBlank(t[|t| - 1])
    ensures Dictionary("{" + (Entry("descr", Quoted(d)) + Entry("fortran_order", f) + Entry("shape", t)) + "}"
                       + Blanks(padding), KEYS)
         == Success(map["descr" := Quoted(d), "fortran_order" := f, "shape" := t])
  {
    hide *;
    KeysAreFound(d, f, t);
    DescrGivesValue(d);
    OrderGivesValue(f);
    ShapeGivesValue(t);
    var a, b, c := Entry("descr", Quoted(d)), Entry("fortran_order", f), Entry("shape", t);
    DictionaryOfEntries(a, b, c, Quoted(d), f, t, padding);
  }

  lemma DescrGivesValue(d: string)
    ensures ValueFromMap(WithoutComma(Trim(Entry("descr", Quoted(d))))) == Quoted(d)
    ensures Entry("descr", Quoted(d)) != ""
  {
    assert Quoted(d)[0] == '\'' && Quoted(d)[|Quoted(d)| - 1] == '\'';
    hide Quoted, ValueFromMap, WithoutComma, Trim;
    EntryGivesValue("descr", Quoted(d));
  }

  lemma ShapeGivesValue(t: string)
    requires t != "" ==> !IsBlank(t[0]) && !IsBlank(t[|t| - 1])
    ensures ValueFromMap(WithoutComma(Trim(Entry("shape", t)))) == t
  {
    hide ValueFromMap, WithoutComma, Trim;
    EntryGivesValue("shape", t);
  }

  lemma OrderGivesValue(f: string)
    requires f != "" ==> !IsBlank(f[0]) && !IsBlank(f[|f| - 1])
    ensures ValueFromMap(WithoutComma(Trim(Entry("fortran_order", f)))) == f
    ensures Entry("fortran_order", f) != ""
  {
    hide ValueFromMap, WithoutComma, Trim;
    EntryGivesValue("fortran_order", f);
  }

  /** Three entries, each found at its own place and each with its value. */
  lemma DictionaryOfEntries(a: string, b: string, c: string, d: string, f: string, t: string, padding: nat)
    requires a != "" && b != ""
    requires Find(a + b + c, Quoted("descr")) == Some(0) && Find(a + b + c, Quoted("fortran_order")) == Some(|a|)
    requires Find(a + b + c, Quoted("shape")) == Some(|a| + |b|)
    requires ValueFromMap(WithoutComma(Trim(a))) == d && ValueFromMap(WithoutComma(Trim(b))) == f
    requires ValueFromMap(WithoutComma(Trim(c))) == t
    ensures Dictionary("{" + (a + b + c) + "}" + Blanks(padding), KEYS)
         == Success(map["descr" := d, "fortran_order" := f, "shape" := t])
  {
    hide *;
    var inner := a + b + c;
    PlacesOfKeys(inner, |a|, |b|);
    PlacesAreSorted(|a|, |b|);
    ValuesOfPlaces(a, b, c);
    ThreePlaces(|a|, |b|);
    DictionaryOfInner(inner, Places(|a|, |b|), padding);
  }

  /** Braces and padding come off, and the sorted key positions decide. */
  lemma DictionaryOfInner(inner: string, places: seq<(nat, string)>, padding: nat)
    requires KeyPositions(inner, KEYS) == Success(places) && Sorted(places) == places && |places| == 3
    ensures Dictionary("{" + inner + "}" + Blanks(padding), KEYS) == Success(Values(inner, places, 3))
  {
    hide Trim, Values, Sorted, KeyPositions;
    Unwrapped(inner, padding);
  }

  lemma ThreePlaces(a: nat, b: nat)
    ensures |Places(a, b)| == 3
  {
  }

  lemma Unwrapped(inner: string, padding: nat)
    ensures var t := Trim("{" + inner + "}" + Blanks(padding));
            |t| >= 2 && t[0] == '{' && t[|t| - 1] == '}' && t[1..|t| - 1] == inner
  {
    var core := "{" + inner + "}";
    assert core[0] == '{' && core[|core| - 1] == '}';
    TrimCore(core, padding);
  }

  /** The values are read as the header they were printed from, exactly when the shape has a dimension. */
  lemma ValuesAreRead(h: Header)
    requires Supported(h)
    ensures HeaderOf(Quoted(h.descr), BoolText(h.fortranOrder), TupleText(h.shape))
         == if h.shape == [] then Failure(InvalidTuple) else Success(h)
  {
    var q := Quoted(h.descr);
    assert q[1..|q| - 1] == h.descr;
    assert ParseStr(q) == Success(h.descr);
    assert ParseBool(BoolText(h.fortranOrder)) == Success(h.fortranOrder);
    if h.shape == [] { assert Trim("") == ""; } else { ShapeIsRead(h.shape); }
  }

  lemma ShapeIsRead(v: seq<nat>)
    requires v != [] && forall i :: 0 <= i < |v| ==> v[i] < ULONG
    ensures var items := TupleItems(TupleText(v));
            items.Success? && items.value != [] && Numbers(items.value) == Success(v)
  {
    hide TupleItems, TupleText, Decimal, Stoul;
    TupleIsSplit(v);
    ItemsAreRead(v, 1);
    StoulReadsDecimal(v[0]);
    var items := [Decimal(v[0])] + Items(v, 1);
    assert items[0] == Decimal(v[0]) && items[1..] == Items(v, 1);
    assert v == [v[0]] + v[1..];
  }

  /**
   * Parsing a printed header, followed by any number of spaces and a newline, returns the description, the
   * order and the shape it was printed from if and only if the shape is not empty.
   */
  lemma HeaderRoundTrip(h: Header, padding: nat)
    requires Supported(h)
    ensures ParsedHeader(HeaderText(h) + Blanks(padding) + "\n")
         == if h.shape == [] then Failure(InvalidTuple) else Success(h)
  {
    HeaderTextIs(h);
    TupleIsPlain(h.shape);
    var q := Quoted(h.descr);
    assert forall i :: 0 <= i < |h.descr| ==> h.descr[i] == q[i + 1];
    var text := HeaderText(h) + Blanks(padding);
    assert (text + "\n")[..|text|] == text;
    DictionaryIsParsed(h.descr, BoolText(h.fortranOrder), TupleText(h.shape), padding);
    ValuesAreRead(h);
  }

  // ----- writing the header -----

  const MAGIC_LENGTH := 6

  /** What write_header puts before the data: version, length field and padded dictionary. */
  method WriteHeader(h: Header) returns (version: nat, lengthBytes: seq<nat>, text: string, ghost padding: nat)
    ensures version == (if |HeaderText(h)| < 65025 - 11 then 1 else 2) && |lengthBytes| == 2 * version
    ensures forall i :: 0 <= i < |lengthBytes| ==> lengthBytes[i] < 0x100
    ensures version == 1 ==> LittleEndian(lengthBytes) == |text| < 0x1_0000
    ensures version == 2 && |text| < 0x1_0000_0000 ==> LittleEndian(lengthBytes) == |text|
    ensures (MAGIC_LENGTH + 2 + |lengthBytes| + |text|) % 16 == 0
    ensures 1 <= padding <= 16 && text == HeaderText(h) + Blanks(padding) + "\n"
    ensures Supported(h) ==> ParsedHeader(text) == if h.shape == [] then Failure(InvalidTuple) else Success(h)
  {
    hide *;
    var dict := HeaderText(h);
    var blanks;
    version, blanks := Layout(|dict|);
    padding := blanks;
    text := dict + Blanks(blanks) + "\n";
    lengthBytes := LengthField(version, |text|);
    if Supported(h) { HeaderRoundTrip(h, padding); }
  }

  /** The version for a dictionary of this length, and the spaces after it. */
  method Layout(dictLength: nat) returns (version: nat, padding: nat)
    ensures version == (if dictLength < 65025 - 11 then 1 else 2) && 1 <= padding <= 16
    ensures (MAGIC_LENGTH + 2 + 2 * version + dictLength + padding + 1) % 16 == 0
  {
    var length := MAGIC_LENGTH + 2 + 2 + dictLength + 1;
    version := 1;
    if length >= 255 * 255 {
      length := MAGIC_LENGTH + 2 + 4 + dictLength + 1;
      version := 2;
    }
    padding := 16 - length % 16;
  }

  /** The length of the header text, in 2 bytes for version 1 and in 4 otherwise. */
  method LengthField(version: nat, n: nat) returns (bytes: seq<nat>)
    requires version == 1 || version == 2
    ensures |bytes| == 2 * version && forall i :: 0 <= i < |bytes| ==> bytes[i] < 0x100
    ensures n < (if version == 1 then 0x1_0000 else 0x1_0000_0000) ==> LittleEndian(bytes) == n
  {
    var b0, b1, b2, b3 := n % 0x100, n / 0x100 % 0x100, n / 0x1_0000 % 0x100, n / 0x100_0000 % 0x100;
    BytesOf(n, n / 0x100, n / 0x1_0000, n / 0x100_0000);
    if version == 1 {
      bytes := [b0, b1];
      OneByte(b1);
      AnotherByte(b0, [b1]);
    } else {
      bytes := [b0, b1, b2, b3];
      OneByte(b3);
      AnotherByte(b2, [b3]);
      AnotherByte(b1, [b2, b3]);
      AnotherByte(b0, [b1, b2, b3]);
    }
  }

  lemma AnotherByte(b: nat, bytes: seq<nat>)
    ensures LittleEndian([b] + bytes) == b + 0x100 * LittleEndian(bytes)
  {
    assert ([b] + bytes)[1..] == bytes;
  }

  lemma BytesOf(n: nat, q1: nat, q2: nat, q3: nat)
    requires q1 == n / 0x100 && q2 == n / 0x1_0000 && q3 == n / 0x100_0000
    ensures q2 == q1 / 0x100 && q3 == q2 / 0x100
    ensures n == 0x100 * q1 + n % 0x100 && q1 == 0x100 * q2 + q1 % 0x100 && q2 == 0x100 * q3 + q2 % 0x100
    ensures n < 0x1_0000 ==> q1 % 0x100 == q1
    ensures n < 0x1_0000_0000 ==> q3 % 0x100 == q3
  {
  }

  /** The number that bytes, the least significant first, stand for. */
  function LittleEndian(bytes: seq<nat>): nat {
    if bytes == [] then 0 else bytes[0] + 0x100 * LittleEndian(bytes[1..])
  }

  lemma OneByte(b: nat)
    ensures LittleEndian([b]) == b
  {
    assert [b][1..] == [];
  }

  method ParseHeader(text: string) returns (r: Result<Header, Error>)
    ensures r == ParsedHeader(text)
  {
    if text == "" || text[|text| - 1] != '\n' {
      return Failure(InvalidHeader);
    }
    var parsed := ParseDict(text[..|text| - 1], KEYS);
    if parsed.Failure? {
      return Failure(parsed.error);
    }
    var dict := parsed.value;
    var descrText := Lookup(dict, "descr");
    if !IsTypestring(descrText) {
      return Failure(InvalidTypestring);
    }
    var descr := ParseStr(descrText);
    if descr.Failure? {
      return Failure(descr.error);
    }
    var order := ParseBool(Lookup(dict, "fortran_order"));
    if order.Failure? {
      return Failure(order.error);
    }
    var items := ParseTuple(Lookup(dict, "shape"));
    if items.Failure? {
      return Failure(items.error);
    }
    if |items.value| == 0 {
      return Failure(InvalidTuple);
    }
    var shape := ReadShape(items.value);
    if shape.Failure? {
      return Failure(shape.error);
    }
    return Success(Header(descr.value, order.value, shape.value));
  }

  method ReadShape(items: seq<string>) returns (r: Result<seq<nat>, Error>)
    ensures r == Numbers(items)
  {
    var shape: seq<nat> := [];
    assert items[0..] == items;
    NothingBefore(Numbers(items));
    for i := 0 to |items|
      invariant Numbers(items) == Following(shape, Numbers(items[i..]))
    {
      var dim := Stoul(items[i]);
      assert items[i..][0] == items[i] && items[i..][1..] == items[i + 1..];
      if dim.None? {
        return Failure(InvalidNumber);
      }
      if Numbers(items[i + 1..]).Success? { OneMore(shape, dim.value, Numbers(items[i + 1..])); }
      shape := shape + [dim.value];
    }
    assert items[|items|..] == [] && shape + [] == shape;
    return Success(shape);
  }

  lemma NothingBefore(rest: Result<seq<nat>, Error>)
    ensures Following([], rest) == rest
  {
    if rest.Success? { assert [] + rest.value == rest.value; }
  }

  lemma OneMore(shape: seq<nat>, n: nat, rest: Result<seq<nat>, Error>)
    requires rest.Success?
    ensures shape + ([n] + rest.value) == shape + [n] + rest.value
  {
  }

  ghost function Following(shape: seq<nat>, rest: Result<seq<nat>, Error>): Result<seq<nat>, Error> {
    if rest.Failure? then rest else Success(shape + rest.value)
  }
}
