/** Option-like result used for operations that may find nothing or fault. */
module Wrappers {
  datatype Option<+T> = None | Some(value: T)
}

/** Character-level helpers: the separator-terminated line format of the
    output files, decimal integers as written by `operator<<`, and the
    `find_last_of`-based name splitting used by `GlobalStats`. */
module Text {

  /** A line of a CSV-like output file: every field is followed by the
      separator, the last one included. */
  function Line(fields: seq<string>, sep: string): string
  {
    if |fields| == 0 then "" else Line(fields[..|fields| - 1], sep) + fields[|fields| - 1] + sep
  }

  /** Writing one more field extends the line by that field and a separator. */
  lemma LineSnoc(fields: seq<string>, f: string, sep: string)
    ensures Line(fields + [f], sep) == Line(fields, sep) + f + sep
  {
    assert (fields + [f])[..|fields|] == fields;
  }

  lemma LineSingle(f: string, sep: string)
    ensures Line([f], sep) == f + sep
  {
    assert [f][..0] == [];
  }

  /** A line of concatenated field lists is the concatenation of their lines. */
  lemma {:induction false} LineConcat(a: seq<string>, b: seq<string>, sep: string)
    ensures Line(a + b, sep) == Line(a, sep) + Line(b, sep)
    decreases |b|
  {
    if |b| == 0 {
      assert a + b == a;
    } else {
      var b' := b[..|b| - 1];
      assert (a + b)[..|a + b| - 1] == a + b';
      LineConcat(a, b', sep);
    }
  }

  /** A line led by one field, then two runs of fields. */
  lemma LineParts(f: string, a: seq<string>, b: seq<string>, sep: string)
    ensures Line([f] + a + b, sep) == f + sep + Line(a, sep) + Line(b, sep)
  {
    LineConcat([f] + a, b, sep);
    LineConcat([f], a, sep);
    LineSingle(f, sep);
  }

  predicate IsDigit(c: char) { '0' <= c <= '9' }

  predicate AllDigits(s: string) { forall i :: 0 <= i < |s| ==> IsDigit(s[i]) }

  function DigitChar(d: nat): (c: char)
    requires d < 10
    ensures IsDigit(c)
  {
    ('0' as int + d) as char
  }

  function DigitValue(c: char): (d: nat)
    requires IsDigit(c)
    ensures d < 10
  {
    c as int - '0' as int
  }

  lemma DigitRoundTrip(d: nat)
    requires d < 10
    ensures DigitValue(DigitChar(d)) == d
  {
  }

  /** Decimal notation of a non-negative integer, most significant digit first,
      without leading zeros. */
  function NatToString(n: nat): string
    decreases n
  {
    if n < 10 then [DigitChar(n)] else NatToString(n / 10) + [DigitChar(n % 10)]
  }

  /** The notation is a non-empty run of digits with no leading zero. */
  lemma {:induction false} NatToStringDigits(n: nat)
    ensures |NatToString(n)| > 0 && AllDigits(NatToString(n))
    ensures |NatToString(n)| > 1 ==> NatToString(n)[0] != '0'
    decreases n
  {
    if n >= 10 {
      NatToStringDigits(n / 10);
      var s := NatToString(n);
      assert s == NatToString(n / 10) + [DigitChar(n % 10)];
      if |NatToString(n / 10)| == 1 {
        assert NatToString(n / 10) == [DigitChar(n / 10)];
      }
    }
  }

  /** The number a string of decimal digits denotes. */
  function DigitsValue(s: string): nat
    requires AllDigits(s)
  {
    if |s| == 0 then 0 else DigitsValue(s[..|s| - 1]) * 10 + DigitValue(s[|s| - 1])
  }

  /** Reading back the decimal notation of `n` gives `n`. */
  lemma {:induction false} NatToStringRoundTrip(n: nat)
    ensures AllDigits(NatToString(n)) && DigitsValue(NatToString(n)) == n
    decreases n
  {
    NatToStringDigits(n);
    var s := NatToString(n);
    if n < 10 {
      assert s[..0] == [];
    } else {
      assert s[..|s| - 1] == NatToString(n / 10);
      NatToStringRoundTrip(n / 10);
    }
  }

  /** Position of the last occurrence of `c` in `s`, or -1 when `c` does not
      occur; this is `find_last_of` for a one-character set. */
  function LastIndexOf(s: string, c: char): (r: int)
    ensures -1 <= r < |s|
  {
    if |s| == 0 then -1
    else if s[|s| - 1] == c then |s| - 1
    else LastIndexOf(s[..|s| - 1], c)
  }

  /** The position found holds `c` and no later one does. */
  lemma {:induction false} LastIndexOfIsLast(s: string, c: char)
    ensures LastIndexOf(s, c) >= 0 ==> s[LastIndexOf(s, c)] == c
    ensures forall j :: LastIndexOf(s, c) < j < |s| ==> s[j] != c
  {
    if |s| > 0 && s[|s| - 1] != c {
      LastIndexOfIsLast(s[..|s| - 1], c);
    }
  }

  /** `path.substr(pos + 1)` with `pos` the last '/' stored in an `unsigned`:
      when there is no '/', `npos` truncated to 32 bits plus one wraps to 0 and
      the whole path is kept. */
  function Basename(path: string): string
  {
    path[LastIndexOf(path, '/') + 1..]
  }

  /** The base name is the part of the path after its last '/', or the
      whole path when it has none. */
  lemma BasenameIsLastComponent(path: string)
    ensures '/' !in Basename(path)
    ensures |Basename(path)| <= |path| && path[|path| - |Basename(path)|..] == Basename(path)
    ensures |Basename(path)| < |path| ==> path[|path| - |Basename(path)| - 1] == '/'
    ensures '/' !in path ==> Basename(path) == path
  {
    var pos := LastIndexOf(path, '/');
    LastIndexOfIsLast(path, '/');
    assert |path| - |Basename(path)| == pos + 1;
  }

  /** `name.substr(0, pos)` with `pos` the last '.' stored in an `unsigned`:
      when there is no '.', `npos` truncated to 32 bits exceeds the length and
      the whole name is kept. */
  function StripExtension(name: string): string
  {
    var pos := LastIndexOf(name, '.');
    if pos < 0 then name else name[..pos]
  }

  /** Stripping keeps what precedes the last '.', or the whole name when it
      has none. */
  lemma StripExtensionIsStem(name: string)
    ensures |StripExtension(name)| <= |name| && name[..|StripExtension(name)|] == StripExtension(name)
    ensures |StripExtension(name)| < |name| ==>
              name[|StripExtension(name)|] == '.' && '.' !in name[|StripExtension(name)| + 1..]
    ensures '.' !in name ==> StripExtension(name) == name
  {
    LastIndexOfIsLast(name, '.');
  }
}
