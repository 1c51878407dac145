/** The single-shot card read of `rfid_reader.py`, with the MFRC522 driver's
    two calls taken as inputs. */
module RfidReader {
  import opened Wrappers

  /** The driver's status code for a successful exchange (`reader.OK`). */
  const OK: int := 0

  /** What one driver call did: returned a value, or raised an exception. */
  datatype Call<+T> = Returned(value: T) | Raised

  predicate IsDigit(c: char)
  {
    '0' <= c <= '9'
  }

  predicate AllDigits(s: string)
  {
    forall i :: 0 <= i < |s| ==> IsDigit(s[i])
  }

  function DigitChar(d: nat): (c: char)
    requires d < 10
    ensures IsDigit(c)
  {
    ['0', '1', '2', '3', '4', '5', '6', '7', '8', '9'][d]
  }

  function DigitValue(c: char): (d: nat)
    requires IsDigit(c)
    ensures d < 10 && DigitChar(d) == c
  {
    (c as int - '0' as int) as nat
  }

  /** `str(n)` for a non-negative integer: its decimal digits, most
      significant first, with no leading zero. */
  function NatDecimal(n: nat): (r: string)
    ensures 1 <= |r| && AllDigits(r)
    ensures (r[0] == '0') <==> (n == 0)
    ensures (|r| == 1) <==> (n < 10)
    decreases n
  {
    if n < 10 then [DigitChar(n)] else NatDecimal(n / 10) + [DigitChar(n % 10)]
  }

  /** `str(x)` for any integer: a minus sign before the digits of a negative one. */
  function Decimal(x: int): (r: string)
    ensures x >= 0 ==> AllDigits(r)
    ensures x < 0 ==> |r| >= 2 && r[0] == '-' && AllDigits(r[1..])
  {
    if x < 0 then "-" + NatDecimal(-x) else NatDecimal(x)
  }

  /** The value a string of decimal digits denotes; the partner of `NatDecimal`. */
  function ParseDecimal(s: string): nat
    requires AllDigits(s)
    decreases |s|
  {
    if s == [] then 0 else ParseDecimal(s[..|s| - 1]) * 10 + DigitValue(s[|s| - 1])
  }

  /** Reading the digits back gives the number: `str` loses nothing. */
  lemma {:induction false} DecimalRoundTrip(n: nat)
    ensures ParseDecimal(NatDecimal(n)) == n
    decreases n
  {
    if n >= 10 {
      DecimalRoundTrip(n / 10);
      var s := NatDecimal(n);
      assert s[..|s| - 1] == NatDecimal(n / 10);
    }
  }

  /** A byte has at most three decimal digits. */
  lemma ByteDecimalWidth(x: int)
    requires 0 <= x < 256
    ensures 1 <= |Decimal(x)| <= 3 && AllDigits(Decimal(x))
  {
    if x >= 10 {
      assert NatDecimal(x) == NatDecimal(x / 10) + [DigitChar(x % 10)];
      assert |NatDecimal(x / 10)| <= 2;
    }
  }

  /** `"".join(str(x) for x in uid)`. */
  function JoinDecimal(uid: seq<int>): string
    decreases |uid|
  {
    if uid == [] then "" else Decimal(uid[0]) + JoinDecimal(uid[1..])
  }

  /** The join renders the elements in order: splitting the list splits the text. */
  lemma {:induction false} JoinAppend(a: seq<int>, b: seq<int>)
    ensures JoinDecimal(a + b) == JoinDecimal(a) + JoinDecimal(b)
    decreases |a|
  {
    if a != [] {
      assert (a + b)[1..] == a[1..] + b;
      JoinAppend(a[1..], b);
    } else {
      assert a + b == b;
    }
  }

  predicate AllBytes(uid: seq<int>)
  {
    forall i :: 0 <= i < |uid| ==> 0 <= uid[i] < 256
  }

  /** For bytes the join consists of decimal digits only, between one and
      three per byte; an empty list gives the empty string. */
  lemma {:induction false} JoinOfBytes(uid: seq<int>)
    requires AllBytes(uid)
    ensures AllDigits(JoinDecimal(uid))
    ensures |uid| <= |JoinDecimal(uid)| <= 3 * |uid|
    ensures uid == [] <==> JoinDecimal(uid) == ""
    decreases |uid|
  {
    if uid != [] {
      ByteDecimalWidth(uid[0]);
      JoinOfBytes(uid[1..]);
      var h, t := Decimal(uid[0]), JoinDecimal(uid[1..]);
      assert forall i :: 0 <= i < |h + t| ==> (h + t)[i] == if i < |h| then h[i] else t[i - |h|];
    }
  }

  /** The join has no separator, so two different uid lists can render alike. */
  lemma JoinIsNotInjective()
    ensures [1, 23] != [12, 3]
    ensures JoinDecimal([1, 23]) == JoinDecimal([12, 3]) == "123"
  {
  }

  /** `read_rfid()`: a uid string when the request and the anticollision
      exchange both report OK, `None` on any other status and on any
      exception from either driver call. `request` is `(status, tag_type)`,
      `anticoll` is `(status, uid)`. */
  function ReadRfid(request: Call<(int, int)>, anticoll: Call<(int, seq<int>)>): (r: Option<string>)
    ensures r.Some? <==> (request.Returned? && request.value.0 == OK
                          && anticoll.Returned? && anticoll.value.0 == OK)
    ensures r.Some? ==> r.value == JoinDecimal(anticoll.value.1)
  {
    match request
    case Raised => None
    case Returned((status, _)) =>
      if status != OK then None
      else
        match anticoll
        case Raised => None
        case Returned((status', uid)) =>
          if status' != OK then None else Some(JoinDecimal(uid))
  }

  /** A failed request is the end of the read: what the anticollision call
      would have returned makes no difference, because it is never made. */
  lemma AnticollOnlyAfterRequestOk(request: Call<(int, int)>,
                                   a1: Call<(int, seq<int>)>, a2: Call<(int, seq<int>)>)
    requires request.Raised? || request.value.0 != OK
    ensures ReadRfid(request, a1) == ReadRfid(request, a2) == None
  {
  }
}
