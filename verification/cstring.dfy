/** The C string functions the echo loop applies to its buffer: `strlen`
    and `strcmp`, and the "text up to the first NUL" they both look at. */
module CString {
  import opened Bytes

  /** The content a C string function sees in `s`: the bytes before the
      first NUL, or all of `s` when it holds none. */
  function CPrefix(s: seq<byte>): (p: seq<byte>)
    ensures p <= s
    ensures NUL !in p
    ensures |p| < |s| ==> s[|p|] == NUL
    ensures p == s <==> NUL !in s
    decreases |s|
  {
    if |s| == 0 || s[0] == NUL then [] else [s[0]] + CPrefix(s[1..])
  }

  /** A prefix of `s` free of NUL that stops at a NUL or at the end of `s`
      is the C content of `s`: the three properties pin `CPrefix` down. */
  lemma CPrefixUnique(s: seq<byte>, p: seq<byte>)
    requires p <= s && NUL !in p
    requires |p| < |s| ==> s[|p|] == NUL
    ensures p == CPrefix(s)
  {
  }

  /** `strlen(buf)`: the index of the first NUL. It is defined only for a
      buffer that holds a NUL; on any other the C function reads past the
      end of the array. */
  function StrLen(buf: seq<byte>): (n: nat)
    requires NUL in buf
    ensures n < |buf| && buf[n] == NUL
    ensures forall i :: 0 <= i < n ==> buf[i] != NUL
    decreases |buf|
  {
    if buf[0] == NUL then 0
    else
      assert buf == [buf[0]] + buf[1..];
      1 + StrLen(buf[1..])
  }

  /** The bytes `strlen` counts are exactly the C content of the buffer. */
  lemma StrLenCountsContent(buf: seq<byte>)
    requires NUL in buf
    ensures buf[..StrLen(buf)] == CPrefix(buf)
  {
    CPrefixUnique(buf, buf[..StrLen(buf)]);
  }

  /** `strcmp(a, b) == 0`: walk both strings until a byte differs or both
      end together at a NUL. */
  predicate StrEqual(a: seq<byte>, b: seq<byte>)
    requires NUL in a && NUL in b
    decreases |a|
  {
    a[0] == b[0] &&
    (a[0] == NUL ||
     (assert a == [a[0]] + a[1..] && b == [b[0]] + b[1..];
      StrEqual(a[1..], b[1..])))
  }

  /** `strcmp` reports equality exactly when the two C contents agree. */
  lemma {:induction false} StrEqualIffSameContent(a: seq<byte>, b: seq<byte>)
    requires NUL in a && NUL in b
    ensures StrEqual(a, b) <==> CPrefix(a) == CPrefix(b)
    decreases |a|
  {
    if a[0] == NUL || b[0] == NUL {
      assert CPrefix(a) == [] <==> a[0] == NUL;
      assert CPrefix(b) == [] <==> b[0] == NUL;
    } else {
      assert a == [a[0]] + a[1..] && b == [b[0]] + b[1..];
      StrEqualIffSameContent(a[1..], b[1..]);
      assert CPrefix(a) == [a[0]] + CPrefix(a[1..]);
      assert CPrefix(b) == [b[0]] + CPrefix(b[1..]);
      if CPrefix(a) == CPrefix(b) {
        assert CPrefix(a)[1..] == CPrefix(a[1..]);
        assert CPrefix(b)[1..] == CPrefix(b[1..]);
      }
    }
  }

  /** A string literal in C is its characters followed by a NUL; its C
      content is the characters themselves. */
  lemma LiteralContent(lit: seq<byte>)
    requires NUL !in lit
    ensures CPrefix(lit + [NUL]) == lit
  {
    CPrefixUnique(lit + [NUL], lit);
  }

  /** Comparing a buffer against a C literal with `strcmp` asks whether the
      buffer's C content is the literal's text. */
  lemma StrEqualLiteral(buf: seq<byte>, lit: seq<byte>)
    requires NUL in buf && NUL !in lit
    ensures StrEqual(buf, lit + [NUL]) <==> CPrefix(buf) == lit
  {
    StrEqualIffSameContent(buf, lit + [NUL]);
    LiteralContent(lit);
  }

  /** Writing `data` to the front of a buffer and a NUL right after it
      leaves a buffer whose C content is that of `data` alone, whatever
      stale bytes `rest` held. */
  lemma TerminatedContent(data: seq<byte>, rest: seq<byte>)
    requires |rest| > 0
    ensures CPrefix((data + rest)[|data| := NUL]) == CPrefix(data)
  {
    var t := (data + rest)[|data| := NUL];
    var p := CPrefix(data);
    assert p <= t by {
      forall i | 0 <= i < |p| ensures t[i] == p[i] {
        assert t[i] == data[i];
      }
    }
    if |p| < |data| {
      assert t[|p|] == data[|p|];
    }
    CPrefixUnique(t, p);
  }
}
