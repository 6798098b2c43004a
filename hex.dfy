/** The firmware's hex formatter: `itoh` writes the eight lower-case hex
    digits of a 32-bit value and a NUL into a caller's buffer, and callers
    print a suffix of that buffer to show fewer digits. */
module Hex {

  import Arith

  /** `uint32_t`. */
  newtype u32 = x: int | 0 <= x < 0x1_0000_0000

  /** `uint16_t`. */
  newtype u16 = x: int | 0 <= x < 0x1_0000

  /** `digit_to_hex`: the digit for each nibble value. */
  const DIGITS: string := "0123456789abcdef"

  /** 16 to the power `n`. */
  function Pow16(n: nat): (p: nat)
    ensures p > 0
  {
    if n == 0 then 1 else 16 * Pow16(n - 1)
  }

  /** `(x >> (i*4)) & 0x0f`: nibble `i` of `x`, counting from the least significant. */
  function Nibble(x: nat, i: nat): (d: nat)
    ensures d < 16
  {
    (x / Pow16(i)) % 16
  }

  /** Reference encoding: the last `n` hex digits of `x`, most significant first. */
  function HexDigits(x: nat, n: nat): (s: string)
    ensures |s| == n
  {
    if n == 0 then [] else HexDigits(x / 16, n - 1) + [DIGITS[x % 16]]
  }

  /** The value of a hex digit (0 for any other character). */
  function DigitValue(c: char): nat
  {
    if '0' <= c <= '9' then (c as int - '0' as int) as nat
    else if 'a' <= c <= 'f' then (c as int - 'a' as int + 10) as nat
    else 0
  }

  /** Reads a string of hex digits back as a number. */
  function FromHex(s: string): nat
  {
    if s == [] then 0 else FromHex(s[..|s| - 1]) * 16 + DigitValue(s[|s| - 1])
  }

  lemma DigitRoundTrip(k: nat)
    requires k < 16
    ensures DigitValue(DIGITS[k]) == k
  {
  }

  /** Character `j` of an `n`-digit encoding is the digit of nibble `n-1-j`. */
  lemma {:induction false} HexDigitsAt(x: nat, n: nat, j: nat)
    requires j < n
    ensures HexDigits(x, n)[j] == DIGITS[Nibble(x, n - 1 - j)]
  {
    if j == n - 1 {
      assert Pow16(0) == 1;
    } else {
      HexDigitsAt(x / 16, n - 1, j);
      DivDiv16(x, n - 2 - j);
    }
  }

  /** Dropping a nibble then taking nibble `i` is taking nibble `i + 1`. */
  lemma DivDiv16(x: nat, i: nat)
    ensures (x / 16) / Pow16(i) == x / Pow16(i + 1)
  {
    Arith.DivMod(x, 16, Pow16(i));
  }

  /** Every character of an encoding comes from the digit table. */
  lemma {:induction false} HexDigitsAlphabet(x: nat, n: nat)
    ensures forall j :: 0 <= j < n ==> HexDigits(x, n)[j] in DIGITS
  {
    if n > 0 {
      HexDigitsAlphabet(x / 16, n - 1);
      assert HexDigits(x, n) == HexDigits(x / 16, n - 1) + [DIGITS[x % 16]];
    }
  }

  /** Decoding an `n`-digit encoding gives `x` modulo 16^n. */
  lemma {:induction false} HexRoundTrip(x: nat, n: nat)
    ensures FromHex(HexDigits(x, n)) == x % Pow16(n)
  {
    if n > 0 {
      var s := HexDigits(x, n);
      assert s[..n - 1] == HexDigits(x / 16, n - 1);
      DigitRoundTrip(x % 16);
      HexRoundTrip(x / 16, n - 1);
      Arith.DivMod(x, 16, Pow16(n - 1));
    }
  }

  /** The last `k` digits of an `n`-digit encoding are the `k`-digit encoding,
      which only depends on `x` modulo 16^k. */
  lemma {:induction false} HexSuffix(x: nat, n: nat, k: nat)
    requires k <= n
    ensures HexDigits(x, n)[n - k..] == HexDigits(x, k)
  {
    if k < n && k > 0 {
      HexSuffix(x / 16, n - 1, k - 1);
      assert HexDigits(x, n)[n - k..] == HexDigits(x / 16, n - 1)[n - k..] + [DIGITS[x % 16]];
    } else if k == 0 {
    }
  }

  /** Equal values modulo 16^k have equal `k`-digit encodings. */
  lemma {:induction false} HexMod(x: nat, k: nat)
    ensures HexDigits(x % Pow16(k), k) == HexDigits(x, k)
  {
    if k > 0 {
      var m := x % Pow16(k);
      assert Pow16(k) == 16 * Pow16(k - 1);
      Arith.ModLow(x, 16, Pow16(k - 1));
      HexMod(x / 16, k - 1);
      assert HexDigits(m, k) == HexDigits(m / 16, k - 1) + [DIGITS[m % 16]];
    }
  }

  /** `itoh(buf, x)`: writes the eight digits of `x`, most significant nibble
      first, then a NUL, into the first nine cells of `buf` and returns `buf`. */
  method Itoh(buf: array<char>, x: u32) returns (r: array<char>)
    requires buf.Length >= 9
    modifies buf
    ensures r == buf
    ensures buf[..9] == HexDigits(x as nat, 8) + ['\0']
    ensures buf[9..] == old(buf[9..])
  {
    var i: int := 7;
    var p := 0;
    while i >= 0
      invariant -1 <= i <= 7 && p == 7 - i
      invariant forall j :: 0 <= j < p ==> buf[j] == DIGITS[Nibble(x as nat, 7 - j)]
      invariant buf[9..] == old(buf[9..])
    {
      buf[p] := DIGITS[(x as nat / Pow16(i)) % 16];
      p := p + 1;
      i := i - 1;
    }
    buf[p] := '\0';
    forall j | 0 <= j < 8
      ensures buf[j] == HexDigits(x as nat, 8)[j]
    {
      HexDigitsAt(x as nat, 8, j);
    }
    r := buf;
  }

  /** A digit string has no NUL in it. */
  lemma NoNul(x: nat, n: nat)
    ensures '\0' !in HexDigits(x, n)
  {
    HexDigitsAlphabet(x, n);
    assert '\0' !in DIGITS;
  }

  /** The C string at `buf + from`: the characters up to the first NUL, as
      `strcat` and `uart_send_str` walk them. */
  method CStringAt(buf: array<char>, from: nat) returns (s: string)
    requires from <= 8 < buf.Length && buf[8] == '\0'
    requires forall j :: 0 <= j < 8 ==> buf[j] != '\0'
    ensures s == buf[from..8]
  {
    s := [];
    var p := from;
    while buf[p] != '\0'
      invariant from <= p <= 8 && s == buf[from..p]
      decreases 8 - p
    {
      s := s + [buf[p]];
      p := p + 1;
    }
  }

  /** `itoh(buf, x) + (8 - ndigits)` read as a C string: the last `ndigits`
      digits of `x`, which read back as `x` modulo 16^ndigits. */
  method ItohSuffix(buf: array<char>, x: u32, ndigits: nat) returns (s: string)
    requires buf.Length >= 9 && ndigits <= 8
    modifies buf
    ensures s == HexDigits(x as nat, ndigits)
    ensures FromHex(s) == x as nat % Pow16(ndigits)
  {
    var p := Itoh(buf, x);
    NoNul(x as nat, 8);
    assert forall j :: 0 <= j < 8 ==> p[j] == HexDigits(x as nat, 8)[j];
    s := CStringAt(p, 8 - ndigits);
    assert s == HexDigits(x as nat, 8)[8 - ndigits..];
    HexSuffix(x as nat, 8, ndigits);
    HexRoundTrip(x as nat, ndigits);
  }

  /** `print_uint(uart, x, ndigits)`: sends the last `ndigits` digits of `x`. */
  method PrintUint(x: u32, ndigits: int) returns (sent: string)
    requires 0 <= ndigits <= 8
    ensures sent == HexDigits(x as nat, ndigits)
    ensures FromHex(sent) == x as nat % Pow16(ndigits)
  {
    var buf := new char[10];
    sent := ItohSuffix(buf, x, ndigits);
  }

  /** One `UID i: xxxxxxxx` line of `print_cpu_info`. */
  function UidLine(i: nat, uid: u32): string
  {
    "UID " + HexDigits(i, 1) + ": " + HexDigits(uid as nat, 8) + "\r\n"
  }

  /** The `MEMSIZE xxxx` line of `print_cpu_info`. */
  function MemsizeLine(memsize: u16): string
  {
    "MEMSIZE " + HexDigits(memsize as nat, 4) + "\r\n"
  }

  /** `print_cpu_info(uart)`: the lines it sends for the three unique-id words
      and the flash size, each built in `buf_100` with `strcat`. */
  method PrintCpuInfo(uid: seq<u32>, memsize: u16) returns (sent: seq<string>)
    requires |uid| == 3
    ensures sent == [UidLine(0, uid[0]), UidLine(1, uid[1]), UidLine(2, uid[2]), MemsizeLine(memsize)]
  {
    var buf := new char[100];
    sent := [];
    for i := 0 to 3
      invariant |sent| == i && forall k :: 0 <= k < i ==> sent[k] == UidLine(k, uid[k])
    {
      var index := ItohSuffix(buf, i as u32, 1);
      var word := ItohSuffix(buf, uid[i], 8);
      var line := "UID " + index + ": " + word + "\r\n";
      assert line == UidLine(i, uid[i]);
      sent := sent + [line];
    }
    var size := ItohSuffix(buf, memsize as u32, 4);
    sent := sent + ["MEMSIZE " + size + "\r\n"];
  }
}
