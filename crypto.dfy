/**
 * `cryptoUtils`: the table-link token. The token is the base64 encoding
 * (standard alphabet with `=` padding, section 4 of RFC 4648, as `btoa`
 * produces it) of `<user agent>-<date>-<table number>`, with every character
 * outside `[A-Za-z0-9]` removed, cut to its last 12 characters. Validation
 * recomputes the token and compares.
 *
 * The user agent (`navigator.userAgent`) and the current instant, as the text
 * `new Date().toISOString()` gives, are parameters.
 */
module Crypto {
  import Text

  /**
   * The base64 alphabet of section 4 of RFC 4648: values 0-25 are `A`-`Z`,
   * 26-51 are `a`-`z`, 52-61 are `0`-`9`, 62 is `+` and 63 is `/`.
   */
  function Sextet(n: int): (c: char)
    requires 0 <= n < 64
    ensures IsAlphanumeric(c) <==> n < 62
  {
    if n < 26 then ('A' as int + n) as char
    else if n < 52 then ('a' as int + (n - 26)) as char
    else if n < 62 then ('0' as int + (n - 52)) as char
    else if n == 62 then '+'
    else '/'
  }

  /** The token keeps this many characters (`slice(-12)`). */
  const TokenLength: nat := 12

  /** `btoa` accepts only strings whose characters fit in one byte. */
  predicate IsLatin1(s: string) {
    forall i :: 0 <= i < |s| ==> s[i] as int < 256
  }

  predicate IsBytes(b: seq<int>) {
    forall i :: 0 <= i < |b| ==> 0 <= b[i] < 256
  }

  /** The bytes `btoa` encodes: one per character, its code. */
  function Bytes(s: string): (b: seq<int>)
    requires IsLatin1(s)
    ensures |b| == |s| && IsBytes(b)
    ensures forall i :: 0 <= i < |s| ==> b[i] == s[i] as int
  {
    seq(|s|, i requires 0 <= i < |s| => s[i] as int)
  }

  /** Base64 with `=` padding: each group of three bytes becomes four characters. */
  function Base64(b: seq<int>): (r: string)
    requires IsBytes(b)
    ensures |r| == 4 * ((|b| + 2) / 3)
    decreases |b|
  {
    if |b| == 0 then ""
    else if |b| == 1 then
      [Sextet(b[0] / 4), Sextet((b[0] % 4) * 16), '=', '=']
    else if |b| == 2 then
      [Sextet(b[0] / 4), Sextet((b[0] % 4) * 16 + b[1] / 16), Sextet((b[1] % 16) * 4), '=']
    else
      [Sextet(b[0] / 4), Sextet((b[0] % 4) * 16 + b[1] / 16),
       Sextet((b[1] % 16) * 4 + b[2] / 64), Sextet(b[2] % 64)]
      + Base64(b[3..])
  }

  /** The length of a padded base64 encoding of `n` bytes. */
  function EncodedLength(n: nat): nat {
    4 * ((n + 2) / 3)
  }

  /** `btoa`: four characters per started group of three characters. */
  function Btoa(s: string): (r: string)
    requires IsLatin1(s)
    ensures |r| == EncodedLength(|s|)
  {
    Base64(Bytes(s))
  }

  predicate IsAlphanumeric(c: char) {
    ('A' <= c <= 'Z') || ('a' <= c <= 'z') || ('0' <= c <= '9')
  }

  /** `replace(/[^a-zA-Z0-9]/g, '')`: only letters and digits remain. */
  function KeepAlphanumeric(s: string): (r: string)
    ensures |r| <= |s|
    ensures forall i :: 0 <= i < |r| ==> IsAlphanumeric(r[i])
    decreases |s|
  {
    if s == [] then ""
    else if IsAlphanumeric(s[0]) then [s[0]] + KeepAlphanumeric(s[1..])
    else KeepAlphanumeric(s[1..])
  }

  /**
   * The filter loses no letter or digit: each one of the input is in the
   * result, and a text of letters and digits alone is left as it is.
   */
  lemma {:induction false} KeepAlphanumericKeeps(s: string)
    ensures forall i :: 0 <= i < |s| && IsAlphanumeric(s[i]) ==> s[i] in KeepAlphanumeric(s)
    ensures (forall i :: 0 <= i < |s| ==> IsAlphanumeric(s[i])) ==> KeepAlphanumeric(s) == s
    decreases |s|
  {
    if s != [] {
      KeepAlphanumericKeeps(s[1..]);
      assert forall i :: 1 <= i < |s| ==> s[i] == s[1..][i - 1];
    }
  }

  /** On one character the filter keeps it exactly when it is a letter or a digit. */
  lemma KeepAlphanumericSingle(c: char)
    ensures KeepAlphanumeric([c]) == if IsAlphanumeric(c) then [c] else []
  {
    assert [c][1..] == [];
  }

  /** `slice(-n)`: the last `n` characters, or all of them when there are fewer. */
  function Last(s: string, n: nat): (r: string)
    ensures |r| == if |s| < n then |s| else n
    ensures r == s[|s| - |r|..]
  {
    if |s| <= n then s else s[|s| - n..]
  }

  /** `new Date().toISOString().split('T')[0]`: the UTC date, as `YYYY-MM-DD`. */
  function DateOf(isoNow: string): string {
    Text.Split(isoNow, 'T')[0]
  }

  /** Whatever the timestamp, the date taken from it holds no `T`. */
  lemma DateOfLacksT(isoNow: string)
    ensures 'T' !in DateOf(isoNow)
  {
    Text.SplitPiecesLackSeparator(isoNow, 'T');
    var date := DateOf(isoNow);
    assert forall i :: 0 <= i < |date| ==> date[i] != 'T';
  }

  /** The text that is encoded. */
  function RawInput(userAgent: string, date: string, tableNo: string): string {
    userAgent + "-" + date + "-" + tableNo
  }

  /**
   * `generateTableHash(tableNo)`: the last 12 characters of the filtered
   * encoding of the raw input (all of it when it is shorter), so at most 12
   * characters, all of them letters or digits.
   */
  function GenerateTableHash(userAgent: string, isoNow: string, tableNo: string): (token: string)
    requires IsLatin1(RawInput(userAgent, DateOf(isoNow), tableNo))
    ensures |token| <= TokenLength
    ensures forall i :: 0 <= i < |token| ==> IsAlphanumeric(token[i])
    ensures var encoded := KeepAlphanumeric(Btoa(RawInput(userAgent, DateOf(isoNow), tableNo)));
            && |token| == (if |encoded| < TokenLength then |encoded| else TokenLength)
            && token == encoded[|encoded| - |token|..]
  {
    Last(KeepAlphanumeric(Btoa(RawInput(userAgent, DateOf(isoNow), tableNo))), TokenLength)
  }

  /**
   * `validateHash(tableNo, hash)`: true exactly when `hash` equals the token
   * recomputed now on this device; no store of issued tokens is consulted.
   */
  function ValidateHash(userAgent: string, isoNow: string, tableNo: string, hash: string): (valid: bool)
    requires IsLatin1(RawInput(userAgent, DateOf(isoNow), tableNo))
    ensures valid <==> hash == GenerateTableHash(userAgent, isoNow, tableNo)
  {
    GenerateTableHash(userAgent, isoNow, tableNo) == hash
  }

  /** The date is the part of the ISO timestamp before the `T`. */
  lemma DateOfIso(date: string, time: string)
    requires forall i :: 0 <= i < |date| ==> date[i] != 'T'
    ensures DateOf(date + "T" + time) == date
  {
    Text.SplitAtFirst(date, 'T', time);
  }

  /** A token just generated, with the same device and instant, validates. */
  lemma GeneratedTokenValidates(userAgent: string, isoNow: string, tableNo: string)
    requires IsLatin1(RawInput(userAgent, DateOf(isoNow), tableNo))
    ensures ValidateHash(userAgent, isoNow, tableNo, GenerateTableHash(userAgent, isoNow, tableNo))
  {
  }

  /** Encoding a whole number of three-byte groups, then the rest, is encoding the whole. */
  lemma {:induction false} Base64Append(a: seq<int>, b: seq<int>)
    requires IsBytes(a) && IsBytes(b) && |a| % 3 == 0
    ensures Base64(a + b) == Base64(a) + Base64(b)
  {
    if a == [] {
      assert a + b == b;
    } else {
      var ab := a + b;
      assert ab[..3] == a[..3];
      assert ab[3..] == a[3..] + b;
      Base64Append(a[3..], b);
    }
  }

  lemma {:induction false} KeepAlphanumericAppend(a: string, b: string)
    ensures KeepAlphanumeric(a + b) == KeepAlphanumeric(a) + KeepAlphanumeric(b)
  {
    if a == [] {
      assert a + b == b;
    } else {
      assert (a + b)[1..] == a[1..] + b;
      KeepAlphanumericAppend(a[1..], b);
    }
  }

  /** The bytes of a concatenation are the concatenated bytes. */
  lemma BytesAppend(a: string, b: string)
    requires IsLatin1(a + b)
    ensures IsLatin1(a) && IsLatin1(b)
    ensures Bytes(a + b) == Bytes(a) + Bytes(b)
  {
    assert forall i :: 0 <= i < |a| ==> a[i] == (a + b)[i];
    assert forall i :: 0 <= i < |b| ==> b[i] == (a + b)[|a| + i];
  }

  /** `QUFB` is letters only, so the filter keeps it whole. */
  lemma QufbKept()
    ensures KeepAlphanumeric("QUFB") == "QUFB"
  {
    var s := "QUFB";
    assert forall i :: 0 <= i < |s| ==> IsAlphanumeric(s[i]) by {
      forall i | 0 <= i < |s| ensures IsAlphanumeric(s[i]) {
        assert i == 0 || i == 1 || i == 2 || i == 3;
      }
    }
    KeepAlphanumericKeeps(s);
  }

  /** `AAA` encodes to `QUFB`: four characters, all of which survive the filter. */
  lemma GroupOfAs(b: seq<int>) returns (group: string)
    requires IsBytes(b) && |b| >= 3 && b[0] == b[1] == b[2] == 'A' as int
    ensures Base64(b) == group + Base64(b[3..])
    ensures KeepAlphanumeric(group) == group && |group| == 4
  {
    assert Sextet(16) == 'Q' && Sextet(20) == 'U' && Sextet(5) == 'F' && Sextet(1) == 'B';
    group := "QUFB";
    QufbKept();
  }

  /** A run of `A`s encodes to characters of which at least four per full group survive the filter. */
  lemma {:induction false} RunOfAs(b: seq<int>)
    requires forall i :: 0 <= i < |b| ==> b[i] == 'A' as int
    ensures |KeepAlphanumeric(Base64(b))| >= 4 * (|b| / 3)
  {
    if |b| >= 3 {
      var rest := b[3..];
      RunOfAs(rest);
      var group := GroupOfAs(b);
      KeepAlphanumericAppend(group, Base64(rest));
      assert |KeepAlphanumeric(Base64(b))| == 4 + |KeepAlphanumeric(Base64(rest))|;
      assert |rest| / 3 + 1 == |b| / 3;
    }
  }

  /**
   * When the text after a whole number of three-character groups already
   * yields 12 letters and digits, the token depends on that text alone.
   */
  lemma TailDecidesToken(head: string, tail: string)
    requires IsLatin1(head + tail) && |head| % 3 == 0
    requires IsLatin1(tail) && |KeepAlphanumeric(Btoa(tail))| >= TokenLength
    ensures Last(KeepAlphanumeric(Btoa(head + tail)), TokenLength) == Last(KeepAlphanumeric(Btoa(tail)), TokenLength)
  {
    BytesAppend(head, tail);
    Base64Append(Bytes(head), Bytes(tail));
    KeepAlphanumericAppend(Base64(Bytes(head)), Base64(Bytes(tail)));
  }

  /**
   * For a table number of at least 14 `A`s, the token of one date is decided
   * by the table number's characters from the first group boundary on.
   */
  lemma TokenOfRunOfAs(userAgent: string, day: string, tableNo: string, j: nat)
    requires |tableNo| >= 14 && forall i :: 0 <= i < |tableNo| ==> tableNo[i] == 'A'
    requires IsLatin1(RawInput(userAgent, day, tableNo))
    requires j == (3 - (|userAgent| + |day| + 2) % 3) % 3
    ensures j <= 2 && IsLatin1(tableNo[j..])
    ensures Last(KeepAlphanumeric(Btoa(RawInput(userAgent, day, tableNo))), TokenLength)
         == Last(KeepAlphanumeric(Btoa(tableNo[j..])), TokenLength)
  {
    var tail := tableNo[j..];
    var head := userAgent + "-" + day + "-" + tableNo[..j];
    assert 0 <= j <= 2 && |tail| >= 12;
    assert (|userAgent| + |day| + 2 + j) % 3 == 0;
    assert |head| % 3 == 0;
    assert RawInput(userAgent, day, tableNo) == head + tail;
    assert forall i :: 0 <= i < |tail| ==> tail[i] == 'A';
    assert IsLatin1(tail);
    var bytes := Bytes(tail);
    assert forall i :: 0 <= i < |bytes| ==> bytes[i] == 'A' as int;
    RunOfAs(bytes);
    assert Btoa(tail) == Base64(bytes);
    assert |bytes| / 3 >= 4;
    TailDecidesToken(head, tail);
  }

  /** At the instant `day` + `T` + `time`, the token is computed from `day`. */
  lemma TokenOfDay(userAgent: string, day: string, time: string, tableNo: string)
    requires forall i :: 0 <= i < |day| ==> day[i] != 'T'
    requires IsLatin1(RawInput(userAgent, day, tableNo))
    ensures DateOf(day + "T" + time) == day
    ensures GenerateTableHash(userAgent, day + "T" + time, tableNo)
         == Last(KeepAlphanumeric(Btoa(RawInput(userAgent, day, tableNo))), TokenLength)
  {
    DateOfIso(day, time);
  }

  /**
   * The token is not bound to the day for every table number: for a table
   * number of at least 14 `A`s, two dates of the same length (every
   * `YYYY-MM-DD` date) give the same token. The last 12 characters of the
   * filtered encoding then come from the table number alone.
   */
  lemma LongTableNumberIgnoresDate(userAgent: string, day1: string, day2: string, tableNo: string, time: string)
    requires |day1| == |day2|
    requires forall i :: 0 <= i < |day1| ==> day1[i] != 'T' && day2[i] != 'T'
    requires |tableNo| >= 14 && forall i :: 0 <= i < |tableNo| ==> tableNo[i] == 'A'
    requires IsLatin1(RawInput(userAgent, day1, tableNo)) && IsLatin1(RawInput(userAgent, day2, tableNo))
    ensures DateOf(day1 + "T" + time) == day1 && DateOf(day2 + "T" + time) == day2
    ensures GenerateTableHash(userAgent, day1 + "T" + time, tableNo)
         == GenerateTableHash(userAgent, day2 + "T" + time, tableNo)
  {
    var j := (3 - (|userAgent| + |day1| + 2) % 3) % 3;
    assert j == (3 - (|userAgent| + |day2| + 2) % 3) % 3;
    TokenOfRunOfAs(userAgent, day1, tableNo, j);
    var t := Last(KeepAlphanumeric(Btoa(tableNo[j..])), TokenLength);
    assert DateOf(day1 + "T" + time) == day1 && GenerateTableHash(userAgent, day1 + "T" + time, tableNo) == t by {
      TokenOfDay(userAgent, day1, time, tableNo);
    }
    assert DateOf(day2 + "T" + time) == day2 && GenerateTableHash(userAgent, day2 + "T" + time, tableNo) == t by {
      TokenOfDay(userAgent, day2, time, tableNo);
      TokenOfRunOfAs(userAgent, day2, tableNo, j);
    }
  }
}
