/**
  The small text codecs of the repository: strings.Split, strings.Trim, strconv.Itoa, the uid and
  prober-address codecs of pkg/lb/servicelb/manager.go and SplitIPAllocatedString of pkg/utils/vid.go.
 */
module Text {
  import opened Common
  import opened Ipv4

  // ----- split and trim -----

  /** strings.Split with a one-character separator. */
  function Split(s: string, c: char): (r: seq<string>)
    ensures |r| > 0
  {
    if |s| == 0 then [""]
    else
      var rest := Split(s[1..], c);
      if s[0] == c then [""] + rest else [[s[0]] + rest[0]] + rest[1..]
  }

  /** A text without the separator is one field; with it, there are more. */
  lemma {:induction false} SplitSingle(s: string, c: char)
    ensures |Split(s, c)| == 1 <==> c !in s
    ensures c !in s ==> Split(s, c) == [s]
  {
    if |s| > 0 {
      SplitSingle(s[1..], c);
      assert s == [s[0]] + s[1..];
    }
  }

  /** Splitting around a separator splits both sides. */
  lemma {:induction false} SplitAround(a: string, c: char, b: string)
    ensures Split(a + [c] + b, c) == Split(a, c) + Split(b, c)
  {
    var s := a + [c] + b;
    if |a| == 0 {
      assert s[1..] == b;
    } else {
      assert s[1..] == a[1..] + [c] + b;
      SplitAround(a[1..], c, b);
    }
  }

  /** Two fields come back exactly when neither side contains the separator. */
  lemma PairRoundTrip(a: string, c: char, b: string)
    ensures |Split(a + [c] + b, c)| == 2 <==> c !in a && c !in b
    ensures c !in a && c !in b ==> Split(a + [c] + b, c) == [a, b]
  {
    SplitAround(a, c, b);
    SplitSingle(a, c);
    SplitSingle(b, c);
  }

  /** Two fields spell the text they came from. */
  lemma {:induction false} PairSpells(s: string, c: char)
    requires |Split(s, c)| == 2
    ensures s == Split(s, c)[0] + [c] + Split(s, c)[1]
  {
    if |s| > 0 {
      if s[0] == c {
        SplitSingle(s[1..], c);
        assert s == "" + [c] + s[1..];
      } else {
        PairSpells(s[1..], c);
        var rest := Split(s[1..], c);
        assert s == [s[0]] + s[1..];
        assert s == ([s[0]] + rest[0]) + [c] + rest[1];
      }
    }
  }

  function TrimLeft(s: string, c: char): string {
    if |s| > 0 && s[0] == c then TrimLeft(s[1..], c) else s
  }

  function TrimRight(s: string, c: char): string {
    if |s| > 0 && s[|s| - 1] == c then TrimRight(s[..|s| - 1], c) else s
  }

  /** strings.Trim with a one-character cutset. */
  function Trim(s: string, c: char): string {
    TrimRight(TrimLeft(s, c), c)
  }

  predicate Trimmed(s: string, c: char) {
    |s| > 0 ==> s[0] != c && s[|s| - 1] != c
  }

  // ----- decimal numbers -----

  const DIGITS := "0123456789"

  function Digits(n: nat): (r: string)
    ensures |r| > 0 && forall i :: 0 <= i < |r| ==> r[i] in DIGITS
    ensures |r| == 1 <==> n < 10
  {
    if n < 10 then [DIGITS[n]] else Digits(n / 10) + [DIGITS[n % 10]]
  }

  lemma {:induction false} DigitsInjective(m: nat, n: nat)
    requires Digits(m) == Digits(n)
    ensures m == n
  {
    var dm, dn := Digits(m), Digits(n);
    if m >= 10 {
      assert dm[..|dm| - 1] == Digits(m / 10) && dn[..|dn| - 1] == Digits(n / 10);
      DigitsInjective(m / 10, n / 10);
      assert dm[|dm| - 1] == DIGITS[m % 10] && dn[|dn| - 1] == DIGITS[n % 10];
    }
  }

  /** strconv.Itoa. */
  function Itoa(n: int): string {
    if n < 0 then "-" + Digits(-n) else Digits(n)
  }

  lemma ItoaSign(n: int)
    ensures Itoa(n)[0] == '-' <==> n < 0
  {
    if n >= 0 {
      assert Digits(n)[0] in DIGITS;
    }
  }

  lemma ItoaInjective(m: int, n: int)
    requires Itoa(m) == Itoa(n)
    ensures m == n
  {
    ItoaSign(m);
    ItoaSign(n);
    if m < 0 {
      assert Itoa(m)[1..] == Digits(-m) && Itoa(n)[1..] == Digits(-n);
      DigitsInjective(-m, -n);
    } else {
      DigitsInjective(m, n);
    }
  }

  lemma ItoaHasNo(n: int, c: char)
    requires c !in DIGITS && c != '-'
    ensures c !in Itoa(n)
  {
  }

  // ----- keys made of two parts -----

  function Key(a: string, c: char, b: string): string {
    a + [c] + b
  }

  /** A protocol and a port number are recovered from "protocol:port". */
  lemma PortKeyInjective(p: string, m: int, q: string, n: int)
    requires Key(p, ':', Itoa(m)) == Key(q, ':', Itoa(n))
    ensures p == q && m == n
  {
    var s, t := Itoa(m), Itoa(n);
    ItoaHasNo(m, ':');
    ItoaHasNo(n, ':');
    LastPartEqual(p, s, q, t, ':');
    ItoaInjective(m, n);
  }

  /** What follows the last separator. */
  function AfterLast(w: string, c: char): string {
    if |w| == 0 || w[|w| - 1] == c then "" else AfterLast(w[..|w| - 1], c) + [w[|w| - 1]]
  }

  lemma {:induction false} AfterLastIs(p: string, s: string, c: char)
    requires c !in s
    ensures AfterLast(p + [c] + s, c) == s
  {
    var w := p + [c] + s;
    if |s| == 0 {
      assert w[|w| - 1] == c;
    } else {
      var k := |s| - 1;
      assert w[..|w| - 1] == p + [c] + s[..k] && w[|w| - 1] == s[k];
      AfterLastIs(p, s[..k], c);
      assert s == s[..k] + [s[k]];
    }
  }

  lemma LastPartEqual(p: string, s: string, q: string, t: string, c: char)
    requires p + [c] + s == q + [c] + t && c !in s && c !in t
    ensures p == q && s == t
  {
    var w := p + [c] + s;
    AfterLastIs(p, s, c);
    AfterLastIs(q, t, c);
    assert w[..|p|] == p && w[..|q|] == q;
  }

  /** manager.go unMarshalUID and unMarshalPorberAddress. */
  function UnmarshalPair(s: string, c: char): Result<(string, string), ()> {
    var fields := Split(s, c);
    if |fields| != 2 then Err(()) else Ok((fields[0], fields[1]))
  }

  /** A uid "namespace/name" is read back exactly when neither part contains a slash. */
  lemma UidRoundTrip(ns: string, name: string)
    ensures UnmarshalPair(Key(ns, '/', name), '/') == Ok((ns, name)) <==> '/' !in ns && '/' !in name
    ensures UnmarshalPair(Key(ns, '/', name), '/').Err? <==> '/' in ns || '/' in name
  {
    PairRoundTrip(ns, '/', name);
  }

  /** A prober address "ip:port" is read back exactly when the address has no colon. */
  lemma ProberAddressRoundTrip(ip: string, port: int)
    ensures UnmarshalPair(Key(ip, ':', Itoa(port)), ':') == Ok((ip, Itoa(port))) <==> ':' !in ip
    ensures UnmarshalPair(Key(ip, ':', Itoa(port)), ':').Err? <==> ':' in ip
  {
    ItoaHasNo(port, ':');
    PairRoundTrip(ip, ':', Itoa(port));
  }

  // ----- the manual release request -----

  /** vid.go SplitIPAllocatedString: "ip: namespace/name". */
  function SplitIpAllocated(s: string): Result<(string, string, string), ()> {
    var fields := Split(Trim(s, ' '), ':');
    if |fields| != 2 then Err(())
    else
      var names := Split(Trim(fields[1], ' '), '/');
      if |names| != 2 then Err(()) else Ok((fields[0], names[0], names[1]))
  }

  /** Whatever is accepted spells the three parts it yields. */
  lemma RequestSpells(s: string)
    requires SplitIpAllocated(s).Ok?
    ensures var (ip, ns, name) := SplitIpAllocated(s).value;
            exists rest :: Trim(s, ' ') == Key(ip, ':', rest) && Trim(rest, ' ') == Key(ns, '/', name)
  {
    var fields := Split(Trim(s, ' '), ':');
    PairSpells(Trim(s, ' '), ':');
    PairSpells(Trim(fields[1], ' '), '/');
    var (ip, ns, name) := SplitIpAllocated(s).value;
    assert Trim(s, ' ') == Key(ip, ':', fields[1]) && Trim(fields[1], ' ') == Key(ns, '/', name);
  }

  /** A well-formed request, as the annotation's documentation writes it, yields its three parts. */
  lemma RequestRoundTrip(ip: string, ns: string, name: string)
    requires ':' !in ip && ':' !in ns && ':' !in name && '/' !in ns && '/' !in name
    requires Trimmed(ip, ' ') && Trimmed(ns, ' ') && Trimmed(name, ' ')
    ensures SplitIpAllocated(ip + ": " + Key(ns, '/', name)) == Ok((ip, ns, name))
  {
    var id := Key(ns, '/', name);
    KeyTrimmed(ns, '/', name);
    RequestSplits(ip, id);
    PairRoundTrip(ns, '/', name);
  }

  lemma RequestSplits(ip: string, id: string)
    requires ':' !in ip && ':' !in id && Trimmed(ip, ' ') && Trimmed(id, ' ') && |id| > 0
    ensures Split(Trim(ip + ": " + id, ' '), ':') == [ip, " " + id] && Trim(" " + id, ' ') == id
  {
    assert ip + ": " + id == ip + [':'] + (" " + id);
    RequestTrimmed(ip, id);
    TrimmedStays(ip + ": " + id, ' ');
    PairRoundTrip(ip, ':', " " + id);
    TrimLead(id);
  }

  lemma RequestTrimmed(ip: string, id: string)
    requires Trimmed(ip, ' ') && Trimmed(id, ' ') && |id| > 0
    ensures Trimmed(ip + [':'] + (" " + id), ' ')
  {
    assert (" " + id)[|id|] == id[|id| - 1];
    KeyTrimmed(ip, ':', " " + id);
  }

  lemma KeyTrimmed(a: string, c: char, b: string)
    requires c != ' ' && (|a| > 0 ==> a[0] != ' ') && (|b| > 0 ==> b[|b| - 1] != ' ')
    ensures Trimmed(Key(a, c, b), ' ')
  {
    var k := Key(a, c, b);
    assert k[0] == if |a| > 0 then a[0] else c;
    assert k[|k| - 1] == if |b| > 0 then b[|b| - 1] else c;
  }

  lemma TrimmedStays(s: string, c: char)
    requires Trimmed(s, c)
    ensures Trim(s, c) == s
  {
  }

  lemma TrimLead(s: string)
    requires Trimmed(s, ' ')
    ensures Trim(" " + s, ' ') == s
  {
    assert (" " + s)[1..] == s;
    assert TrimLeft(" " + s, ' ') == TrimLeft(s, ' ');
    TrimmedStays(s, ' ');
  }

  // ----- addresses as text -----

  /** net.IP.String of an IPv4 address. */
  function AddrText(a: Addr): string {
    var b := FromInt(a);
    Key(Key(Key(Digits(b[0]), '.', Digits(b[1])), '.', Digits(b[2])), '.', Digits(b[3]))
  }

  /** Distinct addresses have distinct texts, so a map keyed by text is a map keyed by address. */
  lemma AddrTextInjective(a: Addr, b: Addr)
    requires AddrText(a) == AddrText(b)
    ensures a == b
  {
    var x, y := FromInt(a), FromInt(b);
    var x1, y1 := Key(Digits(x[0]), '.', Digits(x[1])), Key(Digits(y[0]), '.', Digits(y[1]));
    var x2, y2 := Key(x1, '.', Digits(x[2])), Key(y1, '.', Digits(y[2]));
    LastPartEqual(x2, Digits(x[3]), y2, Digits(y[3]), '.');
    LastPartEqual(x1, Digits(x[2]), y1, Digits(y[2]), '.');
    LastPartEqual(Digits(x[0]), Digits(x[1]), Digits(y[0]), Digits(y[1]), '.');
    DigitsInjective(x[0], y[0]);
    DigitsInjective(x[1], y[1]);
    DigitsInjective(x[2], y[2]);
    DigitsInjective(x[3], y[3]);
    BytesRoundTrip(a);
    BytesRoundTrip(b);
  }

  // ----- what the texts say -----

  /** The number a string of decimal digits denotes. */
  function Value(s: string): nat
    requires forall i :: 0 <= i < |s| ==> '0' <= s[i] <= '9'
  {
    if |s| == 0 then 0 else 10 * Value(s[..|s| - 1]) + (s[|s| - 1] as int - '0' as int)
  }

  /** Itoa spells the number in decimal, without leading zeros. */
  lemma {:induction false} DigitsSpell(n: nat)
    ensures forall i :: 0 <= i < |Digits(n)| ==> '0' <= Digits(n)[i] <= '9'
    ensures Value(Digits(n)) == n && (n > 0 ==> Digits(n)[0] != '0')
  {
    assert forall k :: 0 <= k < 10 ==> DIGITS[k] as int == '0' as int + k;
    var d := Digits(n);
    if n < 10 {
      assert d[..0] == [] && Value([]) == 0;
    } else {
      DigitsSpell(n / 10);
      assert d[..|d| - 1] == Digits(n / 10);
    }
  }

  function Blanks(n: nat, c: char): string {
    seq(n, _ => c)
  }

  /** Trim takes away everything at both ends and nothing else. */
  lemma TrimIsExact(s: string, c: char) returns (l: nat, r: nat)
    ensures s == Blanks(l, c) + Trim(s, c) + Blanks(r, c) && Trimmed(Trim(s, c), c)
  {
    var t := TrimLeft(s, c);
    l := TrimLeftIs(s, c);
    r := TrimRightIs(t, c);
  }

  lemma {:induction false} TrimLeftIs(s: string, c: char) returns (n: nat)
    ensures s == Blanks(n, c) + TrimLeft(s, c)
    ensures |TrimLeft(s, c)| > 0 ==> TrimLeft(s, c)[0] != c
  {
    n := 0;
    if |s| > 0 && s[0] == c {
      var m := TrimLeftIs(s[1..], c);
      n := m + 1;
      assert s == [c] + s[1..] && Blanks(n, c) == [c] + Blanks(m, c);
    }
  }

  lemma {:induction false} TrimRightIs(s: string, c: char) returns (n: nat)
    ensures s == TrimRight(s, c) + Blanks(n, c)
    ensures |TrimRight(s, c)| > 0 ==> TrimRight(s, c)[|TrimRight(s, c)| - 1] != c && TrimRight(s, c)[0] == s[0]
  {
    n := 0;
    if |s| > 0 && s[|s| - 1] == c {
      var m := TrimRightIs(s[..|s| - 1], c);
      n := m + 1;
      assert s == s[..|s| - 1] + [c] && Blanks(n, c) == Blanks(m, c) + [c];
    }
  }

  /** The text of an address is its four bytes in decimal, highest first, between dots. */
  lemma AddrTextSpells(a: Addr)
    ensures var b := FromInt(a);
            && ToInt(b) == a
            && Split(AddrText(a), '.') == [Digits(b[0]), Digits(b[1]), Digits(b[2]), Digits(b[3])]
  {
    var b := FromInt(a);
    BytesRoundTrip(a);
    var d0, d1, d2, d3 := Digits(b[0]), Digits(b[1]), Digits(b[2]), Digits(b[3]);
    SplitSingle(d0, '.');
    SplitSingle(d1, '.');
    SplitSingle(d2, '.');
    SplitSingle(d3, '.');
    SplitAround(d0, '.', d1);
    SplitAround(Key(d0, '.', d1), '.', d2);
    SplitAround(Key(Key(d0, '.', d1), '.', d2), '.', d3);
  }
}
