/** Splitting, joining and decimal printing: the string work that the printers and
    the parsers of the tools share. */
module Textos {

  datatype Option<+T> = None | Some(value: T)

  datatype Result<+T, +E> = Ok(value: T) | Err(error: E)

  lemma Asocia<T>(a: seq<T>, b: seq<T>, c: seq<T>)
    ensures a + (b + c) == a + b + c
  {
  }

  lemma AsociaCinco<T>(a: seq<T>, b: seq<T>, c: seq<T>, d: seq<T>, e: seq<T>)
    ensures a + (b + (c + (d + e))) == a + b + c + d + e
  {
    Asocia(a, b, c + (d + e));
    Asocia(a + b, c, d + e);
    Asocia(a + b + c, d, e);
  }

  lemma SinMas<T>(a: seq<T>)
    ensures a + [] == a
  {
  }

  /** Printable ASCII. */
  predicate EsImprimible(c: char) { ' ' <= c <= '~' }

  predicate TodoImprimible(s: string) { forall c <- s :: EsImprimible(c) }

  /** `rstrip("\r\n")`. */
  function SinFin(s: string): (r: string)
    ensures |r| <= |s| && r == s[..|r|]
  {
    if s != "" && (s[|s| - 1] == '\r' || s[|s| - 1] == '\n') then SinFin(s[..|s| - 1]) else s
  }

  // -- Splitting and joining on one separator -------------------------------------

  /** Python's `s.split(c)`: at least one piece, and no piece holds the separator. */
  function Partir<T(==)>(s: seq<T>, c: T): (ps: seq<seq<T>>)
    ensures |ps| >= 1
    ensures forall p <- ps :: c !in p
  {
    if s == [] then [[]]
    else
      var r := Partir(s[1..], c);
      if s[0] == c then [[]] + r else [[s[0]] + r[0]] + r[1..]
  }

  /** Python's `c.join(ps)`. */
  function Unir<T>(ps: seq<seq<T>>, c: T): seq<T> {
    if |ps| == 0 then []
    else if |ps| == 1 then ps[0]
    else ps[0] + [c] + Unir(ps[1..], c)
  }

  lemma {:induction false} PartirEntero<T>(a: seq<T>, c: T)
    requires c !in a
    ensures Partir(a, c) == [a]
  {
    if a != [] {
      PartirEntero(a[1..], c);
      assert [a[0]] + a[1..] == a;
    }
  }

  lemma {:induction false} PartirPrefijo<T>(a: seq<T>, c: T, s: seq<T>)
    requires c !in a
    ensures Partir(a + [c] + s, c) == [a] + Partir(s, c)
  {
    var todo := a + [c] + s;
    if a == [] {
      assert todo[1..] == s;
    } else {
      PartirPrefijo(a[1..], c, s);
      assert todo[1..] == a[1..] + [c] + s;
      assert [a[0]] + a[1..] == a;
    }
  }

  lemma {:induction false} PartirUnir<T>(ps: seq<seq<T>>, c: T)
    requires |ps| >= 1
    requires forall p <- ps :: c !in p
    ensures Partir(Unir(ps, c), c) == ps
  {
    assert ps[0] in ps;
    if |ps| == 1 {
      PartirEntero(ps[0], c);
    } else {
      PartirUnir(ps[1..], c);
      PartirPrefijo(ps[0], c, Unir(ps[1..], c));
      assert [ps[0]] + ps[1..] == ps;
    }
  }

  lemma {:induction false} UnirPartir<T>(s: seq<T>, c: T)
    ensures Unir(Partir(s, c), c) == s
  {
    if s != [] {
      UnirPartir(s[1..], c);
      var r := Partir(s[1..], c);
      if s[0] == c {
        assert ([[]] + r)[1..] == r;
      } else if |r| == 1 {
        assert [s[0]] + r[0] == s;
      } else {
        var q := [[s[0]] + r[0]] + r[1..];
        assert q[1..] == r[1..];
        assert Unir(q, c) == [s[0]] + Unir(r, c);
      }
    }
  }

  /** Joining in two stages is joining once. */
  lemma {:induction false} UnirConcat<T>(ps: seq<seq<T>>, qs: seq<seq<T>>, c: T)
    requires |ps| >= 1 && |qs| >= 1
    ensures Unir(ps + qs, c) == Unir(ps, c) + [c] + Unir(qs, c)
  {
    if |ps| == 1 {
      assert (ps + qs)[1..] == qs;
    } else {
      assert (ps + qs)[1..] == ps[1..] + qs;
      UnirConcat(ps[1..], qs, c);
    }
  }

  /** Joining brings in nothing but the pieces and the separator. */
  lemma {:induction false} UnirSin<T>(ps: seq<seq<T>>, sep: T, c: T)
    requires c != sep && forall p <- ps :: c !in p
    ensures c !in Unir(ps, sep)
  {
    if |ps| >= 1 {
      assert ps[0] in ps;
      UnirSin(ps[1..], sep, c);
    }
  }

  /** Splitting past `a` gives the pieces of `a` and then the pieces of the rest. */
  lemma {:induction false} PartirConcat<T>(a: seq<T>, c: T, s: seq<T>)
    ensures Partir(a + [c] + s, c) == Partir(a, c) + Partir(s, c)
  {
    if a == [] {
      assert (a + [c] + s)[1..] == s;
    } else {
      assert (a + [c] + s)[1..] == a[1..] + [c] + s;
      PartirConcat(a[1..], c, s);
    }
  }

  // -- Decimal numbers -----------------------------------------------------------------

  predicate EsDigito(c: char) { '0' <= c <= '9' }

  predicate SonDigitos(s: string) { forall c <- s :: EsDigito(c) }

  function Digito(d: nat): (c: char)
    requires d < 10
    ensures EsDigito(c) && c as int - '0' as int == d
  {
    "0123456789"[d]
  }

  /** The decimal form of a natural, as `str(n)` and `%d` print it. */
  function Decimal(n: nat): (s: string)
    ensures |s| >= 1 && SonDigitos(s)
  {
    if n < 10 then [Digito(n)] else Decimal(n / 10) + [Digito(n % 10)]
  }

  /** Python's `int(s)` on a string of decimal digits. */
  function Valor(s: string): nat
    requires SonDigitos(s)
  {
    if s == "" then 0
    else
      assert s[|s| - 1] in s;
      Valor(s[..|s| - 1]) * 10 + (s[|s| - 1] as int - '0' as int)
  }

  lemma {:induction false} ValorDecimal(n: nat)
    ensures Valor(Decimal(n)) == n
  {
    var s := Decimal(n);
    if n < 10 {
      assert s[..0] == "";
    } else {
      ValorDecimal(n / 10);
      assert s[..|s| - 1] == Decimal(n / 10);
    }
  }

  function Pot10(k: nat): nat { if k == 0 then 1 else 10 * Pot10(k - 1) }

  lemma {:induction false} LargoDecimal(n: nat, k: nat)
    requires k >= 1 && n < Pot10(k)
    ensures |Decimal(n)| <= k
  {
    if n >= 10 {
      LargoDecimal(n / 10, k - 1);
    }
  }

  // -- White space ---------------------------------------------------------------------

  /** The characters that Python's `str.strip` and `str.split` take as blank. */
  predicate Blanco(c: char) {
    var n := c as int;
    || 0x09 <= n <= 0x0D || 0x1C <= n <= 0x20 || n == 0x85 || n == 0xA0 || n == 0x1680
    || 0x2000 <= n <= 0x200A || n == 0x2028 || n == 0x2029 || n == 0x202F || n == 0x205F || n == 0x3000
  }

  function PelarIzq(s: string): (r: string)
    ensures |r| <= |s|
    ensures r != "" ==> !Blanco(r[0])
  {
    if s != "" && Blanco(s[0]) then PelarIzq(s[1..]) else s
  }

  function PelarDer(s: string): (r: string)
    ensures |r| <= |s| && r == s[..|r|]
    ensures r != "" ==> !Blanco(r[|r| - 1])
  {
    if s != "" && Blanco(s[|s| - 1]) then PelarDer(s[..|s| - 1]) else s
  }

  /** Python's `s.strip()`. */
  function Pelar(s: string): (r: string)
    ensures |r| <= |s|
  {
    PelarDer(PelarIzq(s))
  }

  predicate TodoBlanco(s: string) { forall c <- s :: Blanco(c) }

  lemma {:induction false} PelarIzqBlancos(b: string, s: string)
    requires TodoBlanco(b)
    ensures PelarIzq(b + s) == PelarIzq(s)
  {
    if b == "" {
      assert b + s == s;
    } else {
      assert b[0] in b;
      assert (b + s)[1..] == b[1..] + s;
      PelarIzqBlancos(b[1..], s);
    }
  }

  lemma {:induction false} PelarDerBlancos(s: string, b: string)
    requires TodoBlanco(b)
    ensures PelarDer(s + b) == PelarDer(s)
  {
    if b == "" {
      assert s + b == s;
    } else {
      assert b[|b| - 1] in b;
      assert (s + b)[..|s + b| - 1] == s + b[..|b| - 1];
      PelarDerBlancos(s, b[..|b| - 1]);
    }
  }

  /** Stripping gives back any core with no blank at its ends, whatever blanks surround it. */
  lemma PelarNucleo(a: string, s: string, b: string)
    requires TodoBlanco(a) && TodoBlanco(b)
    requires s == "" || (!Blanco(s[0]) && !Blanco(s[|s| - 1]))
    ensures Pelar(a + s + b) == s
  {
    assert a + s + b == a + (s + b);
    PelarIzqBlancos(a, s + b);
    if s == "" {
      assert s + b == b && b + "" == b;
      PelarIzqBlancos(b, "");
    } else {
      PelarDerBlancos(s, b);
    }
  }
}
