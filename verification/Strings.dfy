/** C string facts shared by every component: searching, splitting, joining and decimal printing. */
module Strings {

  datatype Option<+T> = None | Some(value: T)

  /** `w` occurs in `s` at index `i`. */
  predicate At(s: string, i: nat, w: string) {
    i + |w| <= |s| && s[i..i + |w|] == w
  }

  /** strstr: the leftmost occurrence of `w` at or after `from`. */
  function Find(s: string, from: nat, w: string): (r: Option<nat>)
    requires from <= |s|
    ensures r.Some? ==> from <= r.value && At(s, r.value, w)
    ensures r.Some? ==> forall i :: from <= i < r.value ==> !At(s, i, w)
    ensures r.None? ==> forall i :: from <= i <= |s| ==> !At(s, i, w)
    decreases |s| - from
  {
    if At(s, from, w) then Some(from)
    else if from == |s| then None
    else Find(s, from + 1, w)
  }

  predicate IsBlank(c: char) {
    c == ' ' || c == '\t'
  }

  predicate AllBlank(s: string) {
    forall i :: 0 <= i < |s| ==> IsBlank(s[i])
  }

  /** Joins the parts with `sep` between neighbours (PMIx_Argv_join for a one-character separator). */
  function Join(parts: seq<string>, sep: string): string {
    if |parts| == 0 then ""
    else if |parts| == 1 then parts[0]
    else parts[0] + sep + Join(parts[1..], sep)
  }

  /** All the fields of `s` between occurrences of `c`; one field when `c` does not occur. */
  function Split(s: string, c: char): (r: seq<string>)
    ensures |r| > 0
    ensures forall i :: 0 <= i < |r| ==> c !in r[i]
  {
    if s == "" then [""]
    else
      var rest := Split(s[1..], c);
      if s[0] == c then [""] + rest
      else [[s[0]] + rest[0]] + rest[1..]
  }

  lemma {:induction false} JoinSnoc(parts: seq<string>, last: string, sep: string)
    requires |parts| > 0
    ensures Join(parts + [last], sep) == Join(parts, sep) + sep + last
  {
    if |parts| == 1 {
      assert (parts + [last])[1..] == [last];
    } else {
      assert (parts + [last])[1..] == parts[1..] + [last];
      JoinSnoc(parts[1..], last, sep);
    }
  }

  lemma {:induction false} SplitField(field: string, c: char)
    requires c !in field
    ensures Split(field, c) == [field]
  {
    if field != "" {
      assert c !in field[1..];
      SplitField(field[1..], c);
      assert [field[0]] + field[1..] == field;
    }
  }

  lemma {:induction false} SplitFirst(field: string, c: char, rest: string)
    requires c !in field
    ensures Split(field + [c] + rest, c) == [field] + Split(rest, c)
  {
    var s := field + [c] + rest;
    if field == "" {
      assert s[1..] == rest;
    } else {
      assert s[1..] == field[1..] + [c] + rest;
      SplitFirst(field[1..], c, rest);
      assert [field[0]] + field[1..] == field;
    }
  }

  /** Splitting recovers exactly what was joined. */
  lemma {:induction false} SplitJoin(parts: seq<string>, c: char)
    requires |parts| > 0
    requires forall i :: 0 <= i < |parts| ==> c !in parts[i]
    ensures Split(Join(parts, [c]), c) == parts
  {
    if |parts| == 1 {
      SplitField(parts[0], c);
    } else {
      SplitJoin(parts[1..], c);
      SplitFirst(parts[0], c, Join(parts[1..], [c]));
      assert Join(parts, [c]) == parts[0] + [c] + Join(parts[1..], [c]);
    }
  }

  /** Joining the fields gives the text back. */
  lemma {:induction false} JoinSplit(s: string, c: char)
    ensures Join(Split(s, c), [c]) == s
  {
    if s != "" {
      var rest := Split(s[1..], c);
      JoinSplit(s[1..], c);
      if s[0] == c {
        assert Split(s, c)[1..] == rest;
      } else {
        var r := Split(s, c);
        assert r[0] == [s[0]] + rest[0] && r[1..] == rest[1..];
        if |rest| > 1 {
          assert Join(r, [c]) == [s[0]] + (rest[0] + [c] + Join(rest[1..], [c]));
        }
      }
      assert s == [s[0]] + s[1..];
    }
  }

  /** The parts that are not empty. */
  function Filled(parts: seq<string>): seq<string> {
    if parts == [] then []
    else (if parts[0] == "" then [] else [parts[0]]) + Filled(parts[1..])
  }

  lemma {:induction false} FilledParts(parts: seq<string>)
    ensures forall p :: p in Filled(parts) <==> p in parts && p != ""
  {
    if parts != [] {
      FilledParts(parts[1..]);
      assert parts == [parts[0]] + parts[1..];
    }
  }

  lemma {:induction false} FilledAll(parts: seq<string>)
    requires "" !in parts
    ensures Filled(parts) == parts
  {
    if parts != [] {
      assert parts == [parts[0]] + parts[1..];
      FilledAll(parts[1..]);
    }
  }

  // ---------------------------------------------------------------- decimal

  predicate IsDigit(c: char) { '0' <= c <= '9' }

  function Digit(d: nat): char
    requires d < 10
  {
    '0' + d as char
  }

  function DecNat(n: nat): (r: string)
    ensures r != ""
    ensures forall i :: 0 <= i < |r| ==> IsDigit(r[i])
  {
    if n < 10 then [Digit(n)] else DecNat(n / 10) + [Digit(n % 10)]
  }

  /** printf("%d"). */
  function Dec(n: int): string {
    if n < 0 then "-" + DecNat(-n) else DecNat(n)
  }

  function DigitValue(c: char): nat
    requires IsDigit(c)
  {
    c as int - '0' as int
  }

  function ReadNat(s: string): nat
    requires forall i :: 0 <= i < |s| ==> IsDigit(s[i])
  {
    if s == "" then 0 else 10 * ReadNat(s[..|s| - 1]) + DigitValue(s[|s| - 1])
  }

  /** Decimal printing loses nothing, so different daemons print different ranks. */
  lemma {:induction false} ReadDec(n: nat)
    ensures ReadNat(DecNat(n)) == n
  {
    if n >= 10 {
      ReadDec(n / 10);
      assert DecNat(n)[..|DecNat(n)| - 1] == DecNat(n / 10);
    } else {
      assert DecNat(n)[..0] == "";
      assert ReadNat(DecNat(n)[..|DecNat(n)| - 1]) == 0;
    }
  }
}
