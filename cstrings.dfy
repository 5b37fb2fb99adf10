/**
  Text handling of the FORMAT message: Python's `str.split` on one separator
  character and `_parseCString` (sdlog2.py:11-12), which decodes a fixed-width
  byte string as ASCII and keeps what precedes the first NUL.
 */
module CStrings {
  import opened Bytes
  import opened Wrappers

  /** The pieces of s between occurrences of sep, as Python's `s.split(sep)`. */
  function Split(s: string, sep: char): (parts: seq<string>)
    ensures |parts| >= 1
  {
    if s == [] then [[]]
    else
      var rest := Split(s[1..], sep);
      if s[0] == sep then [[]] + rest
      else [[s[0]] + rest[0]] + rest[1..]
  }

  /** The pieces glued back together with sep between them, as Python's `sep.join`. */
  function Join(parts: seq<string>, sep: char): string
    requires |parts| >= 1
  {
    if |parts| == 1 then parts[0] else parts[0] + [sep] + Join(parts[1..], sep)
  }

  /** Joining the pieces of a split gives back the string. */
  lemma {:induction false} JoinSplit(s: string, sep: char)
    ensures Join(Split(s, sep), sep) == s
  {
    if s != [] {
      var rest := Split(s[1..], sep);
      JoinSplit(s[1..], sep);
      if s[0] != sep {
        var parts := Split(s, sep);
        if |rest| == 1 {
          assert parts == [[s[0]] + rest[0]];
        } else {
          assert parts[1..] == rest[1..];
          assert Join(rest, sep) == rest[0] + [sep] + Join(rest[1..], sep);
        }
      } else {
        assert Split(s, sep)[1..] == rest;
      }
    }
  }

  /** No piece of a split holds the separator. */
  lemma {:induction false} SplitPiecesLackSep(s: string, sep: char)
    ensures forall i :: 0 <= i < |Split(s, sep)| ==> sep !in Split(s, sep)[i]
  {
    if s != [] {
      SplitPiecesLackSep(s[1..], sep);
    }
  }

  /** Splitting a join of separator-free pieces gives back the pieces. */
  lemma {:induction false} SplitJoin(parts: seq<string>, sep: char)
    requires |parts| >= 1
    requires forall i :: 0 <= i < |parts| ==> sep !in parts[i]
    ensures Split(Join(parts, sep), sep) == parts
  {
    if |parts| == 1 {
      SplitPlain(parts[0], sep);
    } else {
      SplitJoin(parts[1..], sep);
      SplitPrefix(parts[0], Join(parts[1..], sep), sep);
      assert [parts[0]] + parts[1..] == parts;
    }
  }

  /** A string without the separator splits into itself alone. */
  lemma {:induction false} SplitPlain(s: string, sep: char)
    requires sep !in s
    ensures Split(s, sep) == [s]
  {
    if s != [] {
      SplitPlain(s[1..], sep);
      assert [s[0]] + s[1..] == s;
    }
  }

  /** A separator-free prefix p followed by the separator becomes the first piece. */
  lemma {:induction false} SplitPrefix(p: string, t: string, sep: char)
    requires sep !in p
    ensures Split(p + [sep] + t, sep) == [p] + Split(t, sep)
  {
    if p == [] {
      assert ([] + [sep] + t)[1..] == t;
    } else {
      SplitPrefix(p[1..], t, sep);
      assert (p + [sep] + t)[1..] == p[1..] + [sep] + t;
      assert [p[0]] + p[1..] == p;
    }
  }

  /** The first piece of a split is the part of s before the first separator. */
  lemma {:induction false} SplitHead(s: string, sep: char)
    ensures sep !in Split(s, sep)[0]
    ensures |Split(s, sep)[0]| <= |s| && Split(s, sep)[0] == s[..|Split(s, sep)[0]|]
    ensures |Split(s, sep)[0]| < |s| ==> s[|Split(s, sep)[0]|] == sep
  {
    if s != [] {
      SplitHead(s[1..], sep);
    }
  }

  /** Every byte is ASCII (below 128), so `str(b, 'ascii')` succeeds. */
  predicate IsAscii(b: seq<Byte>) {
    forall i :: 0 <= i < |b| ==> b[i] < 128
  }

  /** The ASCII text of b, one character per byte. */
  function AsciiText(b: seq<Byte>): (s: string)
    requires IsAscii(b)
    ensures |s| == |b|
  {
    seq(|b|, i requires 0 <= i < |b| => b[i] as char)
  }

  /**
    `_parseCString`: the ASCII text of cstr up to its first NUL. Fails when
    cstr holds a non-ASCII byte anywhere, even after the NUL, because the whole
    buffer is decoded before it is split.
   */
  function ParseCString(cstr: seq<Byte>): (r: Option<string>)
    ensures r.None? <==> !IsAscii(cstr)
    ensures r.Some? ==> '\0' !in r.value
    ensures r.Some? ==> |r.value| <= |cstr| && forall i :: 0 <= i < |r.value| ==> r.value[i] == cstr[i] as char
    ensures r.Some? && |r.value| < |cstr| ==> cstr[|r.value|] == 0
  {
    if IsAscii(cstr) then
      var text := AsciiText(cstr);
      SplitHead(text, '\0');
      Some(Split(text, '\0')[0])
    else None
  }

  /** A string field with its first NUL at position k decodes to its first k bytes. */
  lemma CStringStopsAtNul(cstr: seq<Byte>, k: nat)
    requires IsAscii(cstr) && k < |cstr| && cstr[k] == 0
    requires forall i :: 0 <= i < k ==> cstr[i] != 0
    ensures ParseCString(cstr) == Some(AsciiText(cstr[..k]))
  {
    var r := ParseCString(cstr).value;
    assert forall i :: 0 <= i < |r| ==> cstr[i] != 0 by {
      forall i | 0 <= i < |r| ensures cstr[i] != 0 {
        assert r[i] in r;
      }
    }
    assert |r| == k;
    assert r == AsciiText(cstr[..k]);
  }

  /** s can be written as a NUL-padded n-byte ASCII field: short enough, ASCII, no NUL. */
  predicate CStringFits(s: string, n: nat) {
    |s| <= n && forall i :: 0 <= i < |s| ==> 0 < s[i] as int < 128
  }

  /** The n-byte field holding s followed by NUL padding, as a logger writes it. */
  function EncodeCString(s: string, n: nat): (b: seq<Byte>)
    requires CStringFits(s, n)
    ensures |b| == n && IsAscii(b)
  {
    seq(n, i requires 0 <= i < n => if i < |s| then s[i] as int else 0)
  }

  /** Reading back a written field gives the string. */
  lemma ParseEncodeCString(s: string, n: nat)
    requires CStringFits(s, n)
    ensures ParseCString(EncodeCString(s, n)) == Some(s)
  {
    var b := EncodeCString(s, n);
    if |s| < n {
      CStringStopsAtNul(b, |s|);
      assert AsciiText(b[..|s|]) == s;
    } else {
      var r := ParseCString(b).value;
      assert forall i :: 0 <= i < n ==> b[i] != 0;
      assert |r| == n;
      assert r == s;
    }
  }
}
