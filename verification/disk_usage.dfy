/** How `disk_usage` (src/main.rs:50-56) turns the text `du -s <dir>`
    prints into a number: the first ASCII-whitespace-separated token, parsed
    as a `u128`.  Running `du` is not part of this model; its output is the
    input here. */
module DiskUsage {
  import opened Wrappers

  /** 2^128: the first value a `u128` cannot hold. */
  const U128Limit: nat := 0x1_0000_0000_0000_0000_0000_0000_0000_0000

  /** Why `disk_usage` panics: no token at all (`next().unwrap()`, line 53),
      or a token that is not a `u128` (`parse().unwrap()`, line 54). */
  datatype DuError = NoToken | NotAU128(token: string)

  /** `u8::is_ascii_whitespace`: space, tab, line feed, form feed and
      carriage return (not the vertical tab). */
  predicate IsAsciiWhitespace(c: char)
  {
    c == ' ' || c == '\t' || c == '\n' || c == '\U{0C}' || c == '\r'
  }

  /** `s` without its leading ASCII whitespace. */
  function TrimStart(s: string): (r: string)
    ensures |r| <= |s| && r == s[|s| - |r|..]
    ensures forall i :: 0 <= i < |s| - |r| ==> IsAsciiWhitespace(s[i])
    ensures r == [] || !IsAsciiWhitespace(r[0])
  {
    if s != [] && IsAsciiWhitespace(s[0]) then TrimStart(s[1..]) else s
  }

  /** The longest prefix of `s` without ASCII whitespace. */
  function TokenPrefix(s: string): (r: string)
    ensures |r| <= |s| && r == s[..|r|]
    ensures forall i :: 0 <= i < |r| ==> !IsAsciiWhitespace(r[i])
    ensures |r| == |s| || IsAsciiWhitespace(s[|r|])
  {
    if s == [] || IsAsciiWhitespace(s[0]) then [] else [s[0]] + TokenPrefix(s[1..])
  }

  /** `split_ascii_whitespace().next()`. */
  function FirstToken(s: string): Option<string>
  {
    var t := TrimStart(s);
    if t == [] then None else Some(TokenPrefix(t))
  }

  /** An ASCII decimal digit. */
  predicate IsDigit(c: char)
  {
    '0' <= c <= '9'
  }

  /** Every character is an ASCII decimal digit. */
  predicate AllDigits(s: string)
  {
    forall i :: 0 <= i < |s| ==> IsDigit(s[i])
  }

  /** The number a string of decimal digits denotes. */
  function DecimalValue(digits: string): nat
    requires AllDigits(digits)
  {
    if digits == [] then 0
    else 10 * DecimalValue(digits[..|digits| - 1]) + (digits[|digits| - 1] - '0') as nat
  }

  /** `str::parse::<u128>`: an optional '+' that is not the whole string, then
      at least one decimal digit and nothing else, with a value below 2^128. */
  function ParseU128(s: string): (r: Option<nat>)
    ensures r.Some? ==> r.value < U128Limit
  {
    var digits := if |s| > 1 && s[0] == '+' then s[1..] else s;
    if digits == [] || !AllDigits(digits) then None
    else if DecimalValue(digits) < U128Limit then Some(DecimalValue(digits))
    else None
  }

  /** `disk_usage` after the subprocess has produced `output`. */
  function SizeFromOutput(output: string): (r: Result<nat, DuError>)
    ensures r.Success? ==> r.value < U128Limit
    ensures r == Failure(NoToken) <==> forall i :: 0 <= i < |output| ==> IsAsciiWhitespace(output[i])
  {
    match FirstToken(output)
    case None => Failure(NoToken)
    case Some(token) =>
      match ParseU128(token)
      case None => Failure(NotAU128(token))
      case Some(n) => Success(n)
  }

  /** The decimal rendering `du` prints for a number: no sign, no leading
      zeros. */
  function Decimal(n: nat): (r: string)
    ensures r != [] && AllDigits(r)
  {
    if n < 10 then [('0' as int + n) as char]
    else Decimal(n / 10) + [('0' as int + n % 10) as char]
  }

  /** Reading back a rendered number gives the number. */
  lemma {:induction false} DecimalRoundTrip(n: nat)
    ensures DecimalValue(Decimal(n)) == n
  {
    if n >= 10 {
      DecimalRoundTrip(n / 10);
      var d := Decimal(n);
      assert d[..|d| - 1] == Decimal(n / 10);
    }
  }

  /** The first token of a token followed by whitespace (or nothing) is that
      token. */
  lemma FirstTokenOf(token: string, rest: string)
    requires token != [] && forall i :: 0 <= i < |token| ==> !IsAsciiWhitespace(token[i])
    requires rest == [] || IsAsciiWhitespace(rest[0])
    ensures FirstToken(token + rest) == Some(token)
  {
    TokenPrefixOf(token, rest);
  }

  /** The token prefix of a token followed by whitespace is the token. */
  lemma {:induction false} TokenPrefixOf(token: string, rest: string)
    requires forall i :: 0 <= i < |token| ==> !IsAsciiWhitespace(token[i])
    requires rest == [] || IsAsciiWhitespace(rest[0])
    ensures TokenPrefix(token + rest) == token
  {
    if token == [] {
      assert token + rest == rest;
    } else {
      assert token + rest == [token[0]] + (token[1..] + rest);
      TokenPrefixOf(token[1..], rest);
    }
  }

  /** The output `du -s` writes for a directory of n KiB, "n<TAB>dir<LF>",
      gives back n for every n a `u128` holds, and the parse of a number
      never exceeds the `u128` range. */
  lemma SizeFromOutputRoundTrip(n: nat, dir: string)
    requires n < U128Limit
    ensures SizeFromOutput(Decimal(n) + "\t" + dir + "\n") == Success(n)
  {
    var d := Decimal(n);
    assert forall i :: 0 <= i < |d| ==> !IsAsciiWhitespace(d[i]) by {
      forall i | 0 <= i < |d| ensures !IsAsciiWhitespace(d[i]) {
        assert IsDigit(d[i]);
      }
    }
    assert Decimal(n) + "\t" + dir + "\n" == d + ("\t" + dir + "\n");
    FirstTokenOf(d, "\t" + dir + "\n");
    DecimalRoundTrip(n);
    assert d[0] != '+' by { assert IsDigit(d[0]); }
  }

  /** A token is rejected when it is a lone sign, has a '-' sign, or denotes
      2^128 or more. */
  lemma ParseU128Rejects(s: string)
    ensures ParseU128("+") == None && ParseU128("") == None
    ensures |s| > 0 && s[0] == '-' ==> ParseU128(s) == None
    ensures AllDigits(s) && s != [] && DecimalValue(s) >= U128Limit ==> ParseU128(s) == None
  {
    if |s| > 0 && s[0] == '-' {
      assert !IsDigit(s[0]);
    }
  }
}
