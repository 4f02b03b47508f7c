/** The row's sort key, internal/adapters/web/shared/templates/keys.go, and the order the
    browser puts keys in, internal/adapters/web/static/handlers/files/js/app.js. */
module SortKeys {
  import opened Ordering
  import opened Domain
  import opened Numbers

  /** Separates the parts of a key. */
  const SEPARATOR: char := '\U{1F}'

  // ----- the key -------------------------------------------------------------------------

  function PadTo(s: string, width: nat): string {
    if |s| < width then Zeros(width - |s|) + s else s
  }

  /** The verb `%06d`: zero-padded to six characters, the sign included, and longer when it must be. */
  function Format06d(n: int): string {
    if n < 0 then "-" + PadTo(Decimal(-n), 5) else PadTo(Decimal(n), 6)
  }

  function SortKey(service: Service): string {
    service.name + [SEPARATOR] + Format06d(service.number) + [SEPARATOR] + service.containerID
  }

  // ----- how the browser compares strings --------------------------------------------

  /** A character as UTF-16 code units. */
  function Units(c: char): (units: seq<int>)
    ensures |units| == 1 ==> units == [c as int]
    ensures |units| == 2 ==> 0xD800 <= units[0] < 0xDC00 <= units[1] < 0xE000
  {
    var n := c as int;
    if n < 0x10000 then [n] else [0xD800 + (n - 0x10000) / 0x400, 0xDC00 + (n - 0x10000) % 0x400]
  }

  /** A JavaScript string is its code units. */
  function Utf16(s: string): seq<int> {
    if s == [] then [] else Units(s[0]) + Utf16(s[1..])
  }

  function CompareUnits(a: seq<int>, b: seq<int>): int {
    if a == [] || b == [] then CompareInts(|a|, |b|)
    else if a[0] != b[0] then CompareInts(a[0], b[0])
    else CompareUnits(a[1..], b[1..])
  }

  /** The `>` of two JavaScript strings. */
  predicate JsAfter(a: string, b: string) {
    CompareUnits(Utf16(a), Utf16(b)) > 0
  }

  /** A pair of characters the browser has the other way round: surrogates sort before U+E000. */
  predicate Crossed(p: char, q: char) {
    0xE000 <= p as int <= 0xFFFF < q as int
  }

  predicate Over(s: string, chars: char -> bool) {
    forall i :: 0 <= i < |s| ==> chars(s[i])
  }

  ghost predicate Uncrossed(chars: char -> bool) {
    forall p, q :: chars(p) && chars(q) ==> !Crossed(p, q)
  }

  lemma {:induction false} SameHeads(c: char, s: seq<int>, t: seq<int>)
    ensures CompareUnits(Units(c) + s, Units(c) + t) == CompareUnits(s, t)
  {
    var u := Units(c);
    assert (u + s)[1..] == u[1..] + s && (u + t)[1..] == u[1..] + t;
    if |u| == 1 {
      assert u[1..] + s == s && u[1..] + t == t;
    } else {
      assert (u[1..] + s)[1..] == s && (u[1..] + t)[1..] == t;
    }
  }

  lemma {:induction false} HeadsDecide(p: char, q: char, s: seq<int>, t: seq<int>)
    requires p != q && !Crossed(p, q) && !Crossed(q, p)
    ensures CompareUnits(Units(p) + s, Units(q) + t) == CompareInts(p as int, q as int)
  {
    var u, v := Units(p), Units(q);
    if p as int > 0xFFFF && q as int > 0xFFFF && u[0] == v[0] {
      assert (u + s)[1..] == [u[1]] + s && (v + t)[1..] == [v[1]] + t;
    }
  }

  /** Over characters none of which cross, the browser's order is that of the code points. */
  lemma {:induction false} Utf16IsCodePoints(a: string, b: string, chars: char -> bool)
    requires Over(a, chars) && Over(b, chars) && Uncrossed(chars)
    ensures CompareUnits(Utf16(a), Utf16(b)) == CompareStrings(a, b)
    decreases |a|
  {
    if a != [] && b != [] {
      if a[0] == b[0] {
        Utf16IsCodePoints(a[1..], b[1..], chars);
        SameHeads(a[0], Utf16(a[1..]), Utf16(b[1..]));
      } else {
        HeadsDecide(a[0], b[0], Utf16(a[1..]), Utf16(b[1..]));
      }
    } else {
      NoUnits(a);
      NoUnits(b);
    }
  }

  lemma {:induction false} NoUnits(s: string)
    ensures Utf16(s) == [] <==> s == []
  {
  }

  // ----- comparing keys part by part -------------------------------------------------

  /** A name ended by a separator below all its characters compares as the name does. */
  lemma {:induction false} NamesDecide(a: string, b: string, s: string, t: string, chars: char -> bool)
    requires Over(a, chars) && Over(b, chars) && Uncrossed(chars) && forall c :: chars(c) ==> c > SEPARATOR
    ensures CompareUnits(Utf16(a + ([SEPARATOR] + s)), Utf16(b + ([SEPARATOR] + t)))
            == if a == b then CompareUnits(Utf16(s), Utf16(t)) else CompareStrings(a, b)
    decreases |a|
  {
    var x, y := a + ([SEPARATOR] + s), b + ([SEPARATOR] + t);
    Headed(a, [SEPARATOR] + s);
    Headed(b, [SEPARATOR] + t);
    Headed([SEPARATOR], s);
    Headed([SEPARATOR], t);
    if x[0] != y[0] {
      HeadsDecide(x[0], y[0], Utf16(x[1..]), Utf16(y[1..]));
    } else {
      SameHeads(x[0], Utf16(x[1..]), Utf16(y[1..]));
      if a != [] && b != [] {
        NamesDecide(a[1..], b[1..], s, t, chars);
        assert a == [a[0]] + a[1..] && b == [b[0]] + b[1..];
      }
    }
  }

  lemma Headed(a: string, s: string)
    ensures if a == [] then a + s == s else (a + s)[0] == a[0] && (a + s)[1..] == a[1..] + s
  {
  }

  /** Prefixes of one length decide before what follows them does. */
  lemma {:induction false} EqualPrefixesDecide(a: string, b: string, s: string, t: string, chars: char -> bool)
    requires |a| == |b| && Over(a, chars) && Over(b, chars) && Uncrossed(chars)
    ensures CompareUnits(Utf16(a + s), Utf16(b + t))
            == if a == b then CompareUnits(Utf16(s), Utf16(t)) else CompareStrings(a, b)
    decreases |a|
  {
    Headed(a, s);
    Headed(b, t);
    if a != [] {
      var x, y := a + s, b + t;
      if a[0] != b[0] {
        HeadsDecide(a[0], b[0], Utf16(x[1..]), Utf16(y[1..]));
      } else {
        SameHeads(a[0], Utf16(x[1..]), Utf16(y[1..]));
        EqualPrefixesDecide(a[1..], b[1..], s, t, chars);
        assert a == [a[0]] + a[1..] && b == [b[0]] + b[1..];
      }
    }
  }

  /** Prefixes of one length decide before what follows them does. */
  lemma {:induction false} EqualLengthsDecide(a: string, b: string, s: string, t: string)
    requires |a| == |b|
    ensures CompareStrings(a + s, b + t) == if a == b then CompareStrings(s, t) else CompareStrings(a, b)
    decreases |a|
  {
    if a == [] {
      assert a + s == s && b + t == t;
    } else {
      assert (a + s)[1..] == a[1..] + s && (b + t)[1..] == b[1..] + t;
      assert a == [a[0]] + a[1..] && b == [b[0]] + b[1..];
      EqualLengthsDecide(a[1..], b[1..], s, t);
    }
  }

  /** The last `width` decimal digits of `n`. */
  function Digits(n: nat, width: nat): (r: string)
    ensures |r| == width
  {
    if width == 0 then "" else Digits(n / 10, width - 1) + [Digit(n % 10)]
  }

  function PowerOfTen(e: nat): nat {
    if e == 0 then 1 else 10 * PowerOfTen(e - 1)
  }

  lemma {:induction false} ZeroHasZeroDigits(width: nat)
    ensures Digits(0, width) == Zeros(width)
  {
    if width > 0 { ZeroHasZeroDigits(width - 1); }
  }

  lemma {:induction false} PaddedIsDigits(n: nat, width: nat)
    requires width > 0 && n < PowerOfTen(width)
    ensures |Decimal(n)| <= width
    ensures Digits(n, width) == PadTo(Decimal(n), width)
  {
    if n < 10 {
      ZeroHasZeroDigits(width - 1);
      assert Zeros(0) == "";
    } else {
      assert width > 1;
      PaddedIsDigits(n / 10, width - 1);
      var rest := Decimal(n / 10);
      assert |rest| <= width - 1;
      if |rest| == width - 1 {
        assert PadTo(rest, width - 1) == rest;
      } else {
        assert PadTo(rest, width - 1) == Zeros(width - 1 - |rest|) + rest;
        assert Zeros(width - 1 - |rest|) + rest + [Digit(n % 10)]
               == Zeros(width - |Decimal(n)|) + Decimal(n);
      }
    }
  }

  lemma {:induction false} DigitsCompare(m: nat, n: nat, width: nat)
    requires m < PowerOfTen(width) && n < PowerOfTen(width)
    ensures CompareStrings(Digits(m, width), Digits(n, width)) == CompareInts(m, n)
  {
    if width > 0 {
      var x, y := Digits(m / 10, width - 1), Digits(n / 10, width - 1);
      DigitsCompare(m / 10, n / 10, width - 1);
      EqualLengthsDecide(x, y, [Digit(m % 10)], [Digit(n % 10)]);
      CompareStringsFlips(x, y);
      assert [Digit(m % 10)][1..] == [] && [Digit(n % 10)][1..] == [];
    }
  }

  lemma NumbersDecide(m: int, n: int)
    requires 0 <= m <= 999999 && 0 <= n <= 999999
    ensures |Format06d(m)| == |Format06d(n)| == 6
    ensures CompareStrings(Format06d(m), Format06d(n)) == CompareInts(m, n)
  {
    assert PowerOfTen(6) == 1000000 by {
      assert PowerOfTen(3) == 1000;
      assert PowerOfTen(4) == 10000;
    }
    PaddedIsDigits(m, 6);
    PaddedIsDigits(n, 6);
    DigitsCompare(m, n, 6);
  }

  // ----- the order embedding ---------------------------------------------------------

  /** Names and IDs over some characters, and replica numbers up to a bound. */
  predicate Within(s: Service, names: char -> bool, ids: char -> bool, bound: int) {
    Over(s.name, names) && Over(s.containerID, ids) && 0 <= s.number <= bound
  }

  /** What makes keys sort right: no name character at or below the separator, and none that
      cross, neither among those of names nor among those of IDs. */
  ghost predicate Sortable(names: char -> bool, ids: char -> bool) {
    (forall c :: names(c) ==> c > SEPARATOR) && Uncrossed(names) && Uncrossed(ids)
  }

  predicate IsAscii(c: char) {
    c <= '\U{7F}'
  }

  /** The part of a key after the name: its number decides, and then its ID. */
  lemma {:induction false} TailsDecide(m: int, n: int, a: string, b: string, ids: char -> bool)
    requires 0 <= m <= 999999 && 0 <= n <= 999999 && Over(a, ids) && Over(b, ids) && Uncrossed(ids)
    ensures CompareUnits(Utf16(Format06d(m) + ([SEPARATOR] + a)), Utf16(Format06d(n) + ([SEPARATOR] + b)))
            == if m == n then CompareStrings(a, b) else CompareInts(m, n)
  {
    NumbersDecide(m, n);
    NumberIsAscii(m);
    NumberIsAscii(n);
    CompareStringsFlips(Format06d(m), Format06d(n));
    EqualPrefixesDecide(Format06d(m), Format06d(n), [SEPARATOR] + a, [SEPARATOR] + b, IsAscii);
    EqualPrefixesDecide([SEPARATOR], [SEPARATOR], a, b, IsAscii);
    Utf16IsCodePoints(a, b, ids);
  }

  /** Where a key comes in the browser's order is where its service comes in display order. */
  lemma KeysEmbed(a: Service, b: Service, names: char -> bool, ids: char -> bool)
    requires Within(a, names, ids, 999999) && Within(b, names, ids, 999999) && Sortable(names, ids)
    ensures CompareUnits(Utf16(SortKey(a)), Utf16(SortKey(b))) == CompareServices(a, b)
  {
    var s := Format06d(a.number) + ([SEPARATOR] + a.containerID);
    var t := Format06d(b.number) + ([SEPARATOR] + b.containerID);
    Regroup(a.name, Format06d(a.number), a.containerID);
    Regroup(b.name, Format06d(b.number), b.containerID);
    NamesDecide(a.name, b.name, s, t, names);
    TailsDecide(a.number, b.number, a.containerID, b.containerID, ids);
    CompareStringsFlips(a.name, b.name);
  }

  /** Different services have different keys. */
  lemma KeysTellApart(a: Service, b: Service, names: char -> bool, ids: char -> bool)
    requires Within(a, names, ids, 999999) && Within(b, names, ids, 999999) && Sortable(names, ids)
    ensures SortKey(a) == SortKey(b)
            <==> a.name == b.name && a.number == b.number && a.containerID == b.containerID
  {
    if SortKey(a) == SortKey(b) {
      KeysEmbed(a, b, names, ids);
      EqualUnits(Utf16(SortKey(a)), Utf16(SortKey(b)));
      CompareServicesFlips(a, b);
    }
  }

  lemma Regroup(name: string, number: string, id: string)
    ensures name + [SEPARATOR] + number + [SEPARATOR] + id == name + ([SEPARATOR] + (number + ([SEPARATOR] + id)))
  {
  }

  lemma {:induction false} EqualUnits(s: seq<int>, t: seq<int>)
    requires s == t
    ensures CompareUnits(s, t) == 0
    decreases |s|
  {
    if s != [] { EqualUnits(s[1..], t[1..]); }
  }

  lemma NumberIsAscii(n: int)
    requires 0 <= n <= 999999
    ensures Over(Format06d(n), IsAscii)
  {
    NumbersDecide(n, n);
    assert PowerOfTen(6) == 1000000 by {
      assert PowerOfTen(3) == 1000;
      assert PowerOfTen(4) == 10000;
    }
    PaddedIsDigits(n, 6);
    DigitsAreAscii(n, 6);
  }

  lemma {:induction false} DigitsAreAscii(n: nat, width: nat)
    ensures Over(Digits(n, width), IsAscii)
  {
    if width > 0 { DigitsAreAscii(n / 10, width - 1); }
  }

  /** Keys put any two services of the range in display order. */
  ghost predicate KeysAgree(names: char -> bool, ids: char -> bool, bound: int) {
    forall a, b :: Within(a, names, ids, bound) && Within(b, names, ids, bound) ==>
      (JsAfter(SortKey(a), SortKey(b)) <==> CompareServices(a, b) > 0)
  }

  /** The keys agree with display order exactly when the characters are sortable and no number
      needs a seventh digit. */
  lemma KeysAgreeExactly(names: char -> bool, ids: char -> bool, bound: int)
    requires 0 <= bound
    ensures KeysAgree(names, ids, bound) <==> Sortable(names, ids) && bound <= 999999
  {
    if Sortable(names, ids) && bound <= 999999 {
      forall a, b | Within(a, names, ids, bound) && Within(b, names, ids, bound)
        ensures JsAfter(SortKey(a), SortKey(b)) <==> CompareServices(a, b) > 0
      {
        KeysEmbed(a, b, names, ids);
      }
    } else if bound > 999999 {
      SeventhDigitBreaksOrder();
      NotInOrder(Named("", 999999, ""), Named("", 1000000, ""), names, ids, bound);
    } else if c :| names(c) && c <= SEPARATOR {
      ControlCharacterBreaksOrder(c);
      NotInOrder(Named("", 0, ""), Named([c], 0, ""), names, ids, bound);
    } else if !Uncrossed(names) {
      var p, q :| names(p) && names(q) && Crossed(p, q);
      CrossedNamesBreakOrder(p, q);
      NotInOrder(Named([p], 0, ""), Named([q], 0, ""), names, ids, bound);
    } else {
      var p, q :| ids(p) && ids(q) && Crossed(p, q);
      CrossedIDsBreakOrder(p, q);
      NotInOrder(Named("", 0, [p]), Named("", 0, [q]), names, ids, bound);
    }
  }

  lemma NotInOrder(a: Service, b: Service, names: char -> bool, ids: char -> bool, bound: int)
    requires Within(a, names, ids, bound) && Within(b, names, ids, bound)
    requires JsAfter(SortKey(a), SortKey(b)) && CompareServices(a, b) < 0
    ensures !KeysAgree(names, ids, bound)
  {
  }

  // ----- what a key can place ----------------------------------------------------------

  predicate InName(c: char) {
    ' ' <= c <= '\U{FFFF}'
  }

  predicate InID(c: char) {
    c <= '\U{FFFF}'
  }

  /** What pages are asked to place: no control characters in the name, no surrogates, and at
      most six digits. */
  predicate Placeable(s: Service) {
    Within(s, InName, InID, 999999)
  }

  lemma KeysEmbedOrder(a: Service, b: Service)
    requires Placeable(a) && Placeable(b)
    ensures CompareUnits(Utf16(SortKey(a)), Utf16(SortKey(b))) == CompareServices(a, b)
  {
    KeysEmbed(a, b, InName, InID);
  }

  // ----- where keys and display order part ---------------------------------------------

  function Named(name: string, number: int, id: string): Service {
    Service(id, name, number, "", "", "", "", "", Running, "Up", "Up", "", HealthNone, [], 0)
  }

  lemma KeyOf(name: string, number: int, id: string)
    ensures SortKey(Named(name, number, id)) == name + ([SEPARATOR] + (Format06d(number) + ([SEPARATOR] + id)))
  {
    Regroup(name, Format06d(number), id);
  }

  lemma SecondCharacterDecides(a: string, b: string)
    requires |a| > 1 && |b| > 1 && a[0] == b[0] && a[1] > b[1]
    requires a[0] as int < 0x10000 && a[1] as int < 0x10000
    ensures JsAfter(a, b)
  {
    assert Utf16(a)[0] == Utf16(b)[0];
    assert Utf16(a)[1..] == Utf16(a[1..]) && Utf16(b)[1..] == Utf16(b[1..]);
    assert Utf16(a[1..])[0] == a[1] as int && Utf16(b[1..])[0] == b[1] as int;
  }

  /** A name that starts with a control character is placed before the empty name. */
  lemma ControlCharacterBreaksOrder(c: char)
    requires c <= SEPARATOR
    ensures JsAfter(SortKey(Named("", 0, "")), SortKey(Named([c], 0, "")))
    ensures CompareServices(Named("", 0, ""), Named([c], 0, "")) < 0
  {
    var a, b := SortKey(Named("", 0, "")), SortKey(Named([c], 0, ""));
    KeyOf("", 0, "");
    KeyOf([c], 0, "");
    NumbersDecide(0, 0);
    assert a[0] == SEPARATOR && b[0] == c && b[1] == SEPARATOR;
    if c == SEPARATOR {
      assert Format06d(0)[0] == '0' by { PaddedIsDigits(0, 6); ZeroHasZeroDigits(6); }
      assert a[1] == '0';
      SecondCharacterDecides(a, b);
    }
  }

  lemma CrossedHeads(p: char, q: char, s: string, t: string)
    requires Crossed(p, q)
    ensures JsAfter([p] + s, [q] + t)
  {
    assert Utf16([p] + s)[0] == p as int;
    assert Utf16([q] + t)[0] < 0xDC00;
  }

  lemma {:induction false} CrossedNamesBreakOrder(p: char, q: char)
    requires Crossed(p, q)
    ensures JsAfter(SortKey(Named([p], 0, "")), SortKey(Named([q], 0, "")))
    ensures CompareServices(Named([p], 0, ""), Named([q], 0, "")) < 0
  {
    var rest := [SEPARATOR] + (Format06d(0) + ([SEPARATOR] + ""));
    KeyOf([p], 0, "");
    KeyOf([q], 0, "");
    CrossedHeads(p, q, rest, rest);
  }

  lemma {:induction false} SamePrefix(prefix: string, s: string, t: string)
    ensures CompareUnits(Utf16(prefix + s), Utf16(prefix + t)) == CompareUnits(Utf16(s), Utf16(t))
  {
    Headed(prefix, s);
    Headed(prefix, t);
    if prefix != [] {
      SameHeads(prefix[0], Utf16(prefix[1..] + s), Utf16(prefix[1..] + t));
      SamePrefix(prefix[1..], s, t);
    }
  }

  lemma CrossedIDsBreakOrder(p: char, q: char)
    requires Crossed(p, q)
    ensures JsAfter(SortKey(Named("", 0, [p])), SortKey(Named("", 0, [q])))
    ensures CompareServices(Named("", 0, [p]), Named("", 0, [q])) < 0
  {
    var prefix := "" + [SEPARATOR] + Format06d(0) + [SEPARATOR];
    SamePrefix(prefix, [p], [q]);
    CrossedHeads(p, q, "", "");
    assert [p] + "" == [p] && [q] + "" == [q];
  }

  lemma SeventhDigitBreaksOrder()
    ensures JsAfter(SortKey(Named("", 999999, "")), SortKey(Named("", 1000000, "")))
    ensures CompareServices(Named("", 999999, ""), Named("", 1000000, "")) < 0
  {
    var a, b := SortKey(Named("", 999999, "")), SortKey(Named("", 1000000, ""));
    FirstDigits();
    assert a[0] == SEPARATOR == b[0] && a[1] == '9' && b[1] == '1';
    SecondCharacterDecides(a, b);
  }

  lemma FirstDigits()
    ensures Format06d(999999) == "999999" && Format06d(1000000) == "1000000"
  {
    assert Decimal(99) == "99" && Decimal(999) == "999" && Decimal(9999) == "9999";
    assert Decimal(99999) == "99999" && Decimal(999999) == "999999";
    assert Decimal(10) == "10" && Decimal(100) == "100" && Decimal(1000) == "1000";
    assert Decimal(10000) == "10000" && Decimal(100000) == "100000" && Decimal(1000000) == "1000000";
  }
}
