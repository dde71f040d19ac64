/** The names that the generator gives to the functions it writes. */
module Naming {

  /** A function of a module or utility file, or the extern function of a module. */
  datatype Name = Fun(utility: bool, file: nat, index: nat) | Extern(file: nat)

  function Digit(d: nat): char
    requires d < 10
  {
    ('0' as int + d) as char
  }

  /** str(n) */
  function Decimal(n: nat): (s: string)
    ensures s != [] && '_' !in s
  {
    if n < 10 then [Digit(n)] else Decimal(n / 10) + [Digit(n % 10)]
  }

  lemma {:induction false} DecimalInjective(m: nat, n: nat)
    requires Decimal(m) == Decimal(n)
    ensures m == n
  {
    var s := Decimal(m);
    assert s[|s| - 1] == Digit(m % 10) && s[|s| - 1] == Digit(n % 10);
    if m >= 10 && n >= 10 {
      assert s[..|s| - 1] == Decimal(m / 10) && s[..|s| - 1] == Decimal(n / 10);
      DecimalInjective(m / 10, n / 10);
    } else {
      assert |s| == 1;
    }
  }

  /** The padding that -n asks for. */
  function Padding(length: nat): (s: string)
    ensures |s| == length
  {
    seq(length, j requires 0 <= j => Digit(j % 10))
  }

  function Prefix(utility: bool): string {
    if utility then "libutility" else "libmodule"
  }

  function Text(name: Name, nameLength: nat): string {
    match name
    case Fun(utility, file, index) =>
      Prefix(utility) + (Decimal(file) + "_" + ("fun" + Decimal(index) + Padding(nameLength)))
    case Extern(file) => Prefix(false) + (Decimal(file) + "_" + "extern")
  }

  /** The length of the part before the first underscore. */
  function Cut(s: string): nat {
    if s == [] || s[0] == '_' then 0 else 1 + Cut(s[1..])
  }

  lemma {:induction false} CutAt(a: string, b: string)
    requires '_' !in a
    ensures Cut(a + "_" + b) == |a|
  {
    var s := a + "_" + b;
    if a != [] {
      CutAt(a[1..], b);
      assert s[1..] == a[1..] + "_" + b && s[0] == a[0];
    }
  }

  lemma SplitUnique(a: string, b: string, a': string, b': string)
    requires a + "_" + b == a' + "_" + b' && '_' !in a && '_' !in a'
    ensures a == a' && b == b'
  {
    var s := a + "_" + b;
    CutAt(a, b);
    CutAt(a', b');
    assert a == s[..|a|] && a' == s[..|a'|];
    assert b == s[|a| + 1..] && b' == s[|a'| + 1..];
  }

  lemma AppendInjective(p: string, a: string, b: string)
    requires p + a == p + b
    ensures a == b
  {
    assert a == (p + a)[|p|..] && b == (p + b)[|p|..];
  }

  lemma PrependInjective(a: string, b: string, p: string)
    requires a + p == b + p
    ensures a == b
  {
    assert |a| == |b|;
    assert a == (a + p)[..|a|] && b == (b + p)[..|b|];
  }

  function Utility(name: Name): bool {
    name.Fun? && name.utility
  }

  /** What follows the underscore. */
  function Tail(name: Name, nameLength: nat): string {
    match name
    case Fun(_, _, index) => "fun" + Decimal(index) + Padding(nameLength)
    case Extern(_) => "extern"
  }

  /** Under one padding length no two functions of the whole program get the same name. */
  lemma NamesAreDistinct(x: Name, y: Name, nameLength: nat)
    requires Text(x, nameLength) == Text(y, nameLength)
    ensures x == y
  {
    var tx, ty := Text(x, nameLength), Text(y, nameLength);
    assert tx[3] == (if Utility(x) then 'u' else 'm') && ty[3] == if Utility(y) then 'u' else 'm';
    AppendInjective(Prefix(Utility(x)), Decimal(x.file) + "_" + Tail(x, nameLength),
                    Decimal(y.file) + "_" + Tail(y, nameLength));
    SplitUnique(Decimal(x.file), Tail(x, nameLength), Decimal(y.file), Tail(y, nameLength));
    DecimalInjective(x.file, y.file);
    assert Tail(x, nameLength)[0] == Tail(y, nameLength)[0];
    if x.Fun? && y.Fun? {
      PrependInjective("fun" + Decimal(x.index), "fun" + Decimal(y.index), Padding(nameLength));
      AppendInjective("fun", Decimal(x.index), Decimal(y.index));
      DecimalInjective(x.index, y.index);
    }
  }
}
