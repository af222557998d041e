/**
 * A client of the transport company (transport/client.py): a name, a cargo weight and
 * a VIP flag, validated once at construction and never changed afterwards.
 */
module Clients {
  import opened Wrappers

  /** Why the constructor refuses its arguments (both are ValueError in the source). */
  datatype ClientError = EmptyName | NonPositiveWeight

  /** A constructed client. Being a datatype value, it cannot be mutated. */
  datatype Client = Client(id: string, name: string, weight: real, isVip: bool)
  {
    /** What construction guarantees about every client. */
    predicate Valid() {
      |name| > 0 && weight > 0.0 && IsClientId(id)
    }
  }

  /** The decimal digit `d` as a character. */
  function DigitChar(d: int): (ch: char)
    requires 0 <= d <= 9
    ensures '0' <= ch <= '9' && ch as int - '0' as int == d
  {
    "0123456789"[d]
  }

  /** "C" followed by the decimal form of a number drawn from [1000, 9999]. */
  function ClientIdOf(n: int): (id: string)
    requires 1000 <= n <= 9999
    ensures IsClientId(id)
  {
    ['C', DigitChar(n / 1000), DigitChar(n / 100 % 10), DigitChar(n / 10 % 10), DigitChar(n % 10)]
  }

  predicate IsDigit(ch: char) { '0' <= ch <= '9' }

  function DigitValue(ch: char): int
    requires IsDigit(ch)
  {
    ch as int - '0' as int
  }

  /** The shape of every client id: 'C' and four decimal digits, the first one not zero. */
  predicate IsClientId(s: string) {
    |s| == 5 && s[0] == 'C' && '1' <= s[1] <= '9'
    && IsDigit(s[2]) && IsDigit(s[3]) && IsDigit(s[4])
  }

  /** The number a client id was made from, if the text has the shape of one. */
  function ParseClientId(s: string): (r: Option<int>)
    ensures r.Some? <==> IsClientId(s)
    ensures r.Some? ==> 1000 <= r.value <= 9999
  {
    if IsClientId(s) then
      Some(1000 * DigitValue(s[1]) + 100 * DigitValue(s[2]) + 10 * DigitValue(s[3]) + DigitValue(s[4]))
    else None
  }

  /** The four decimal digits of a number in [1000, 9999], most significant first. */
  lemma DigitsOf(n: int)
    requires 1000 <= n <= 9999
    ensures 1 <= n / 1000 <= 9 && 0 <= n / 100 % 10 <= 9 && 0 <= n / 10 % 10 <= 9 && 0 <= n % 10 <= 9
    ensures n == 1000 * (n / 1000) + 100 * (n / 100 % 10) + 10 * (n / 10 % 10) + n % 10
  {
    var q1, q2, q3 := n / 10, n / 100, n / 1000;
    assert n == 10 * q1 + n % 10;
    assert q1 == 10 * (q1 / 10) + q1 % 10;
    assert q1 / 10 == q2;
    assert q2 == 10 * (q2 / 10) + q2 % 10;
    assert q2 / 10 == q3;
  }

  /** A number assembled from four decimal digits yields those digits back. */
  lemma DigitsFrom(a: int, b: int, c: int, d: int)
    requires 1 <= a <= 9 && 0 <= b <= 9 && 0 <= c <= 9 && 0 <= d <= 9
    ensures var n := 1000 * a + 100 * b + 10 * c + d;
      n / 1000 == a && n / 100 % 10 == b && n / 10 % 10 == c && n % 10 == d
  {
    var n := 1000 * a + 100 * b + 10 * c + d;
    assert n == 10 * (100 * a + 10 * b + c) + d;
    assert n / 10 == 100 * a + 10 * b + c;
    assert n / 10 == 10 * (10 * a + b) + c;
    assert n / 100 == 10 * a + b;
    assert n / 1000 == a;
  }

  /** Reading back an id gives the number it was made from ... */
  lemma ParseClientIdOf(n: int)
    requires 1000 <= n <= 9999
    ensures ParseClientId(ClientIdOf(n)) == Some(n)
  {
    DigitsOf(n);
    var id := ClientIdOf(n);
    assert DigitValue(id[1]) == n / 1000;
    assert DigitValue(id[2]) == n / 100 % 10;
    assert DigitValue(id[3]) == n / 10 % 10;
    assert DigitValue(id[4]) == n % 10;
  }

  /** ... and every text of that shape is the id of exactly the number it reads as. */
  lemma ClientIdOfParse(s: string)
    requires IsClientId(s)
    ensures ClientIdOf(ParseClientId(s).value) == s
  {
    var a, b, c, d := DigitValue(s[1]), DigitValue(s[2]), DigitValue(s[3]), DigitValue(s[4]);
    DigitsFrom(a, b, c, d);
    DigitCharValue(s[1]);
    DigitCharValue(s[2]);
    DigitCharValue(s[3]);
    DigitCharValue(s[4]);
    var id := ClientIdOf(1000 * a + 100 * b + 10 * c + d);
    assert id[1] == s[1] && id[2] == s[2] && id[3] == s[3] && id[4] == s[4];
  }

  /** Spelling a digit's value gives the digit back. */
  lemma DigitCharValue(ch: char)
    requires IsDigit(ch)
    ensures DigitChar(DigitValue(ch)) == ch
  {
  }

  /** Two clients get the same id only when the random draws were equal. */
  lemma ClientIdInjective(m: int, n: int)
    requires 1000 <= m <= 9999 && 1000 <= n <= 9999
    ensures ClientIdOf(m) == ClientIdOf(n) <==> m == n
  {
    ParseClientIdOf(m);
    ParseClientIdOf(n);
  }

  /**
   * Client(name, cargo_weight, is_vip): the name must be non-empty, checked first, and the
   * weight positive. `draw` stands for the value random.randint(1000, 9999) returned.
   */
  function NewClient(name: string, weight: real, isVip: bool, draw: int): (r: Result<Client, ClientError>)
    requires 1000 <= draw <= 9999
    ensures name == [] ==> r == Failure(EmptyName)
    ensures name != [] && weight <= 0.0 ==> r == Failure(NonPositiveWeight)
    ensures r.Success? <==> name != [] && weight > 0.0
    ensures r.Success? ==>
              && r.value.Valid()
              && r.value.name == name && r.value.weight == weight && r.value.isVip == isVip
              && ParseClientId(r.value.id) == Some(draw)
  {
    if name == [] then Failure(EmptyName)
    else if weight <= 0.0 then Failure(NonPositiveWeight)
    else
      ParseClientIdOf(draw);
      Success(Client(ClientIdOf(draw), name, weight, isVip))
  }
}
