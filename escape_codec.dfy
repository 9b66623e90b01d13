/**
 * JSON string escaping as the text writer performs it: the escape table,
 * the expansion of a stored payload by its skip list, and the reference
 * definitions it is proved against (per-byte escaping and its inverse).
 */
module EscapeCodec {
  import opened Wrappers
  import opened Blittable
  import opened Emission

  /**
   * The EscapeCharacters table the static constructor builds: 255 (no
   * escape) everywhere, then the letter written after the backslash for
   * each of the eight escapable bytes.
   */
  function EscapeCharacters(): (table: seq<byte>)
    ensures |table| == 256
  {
    seq(256, (i: int) => 255 as byte)
      [8 := 98]    // '\b' -> 'b'
      [9 := 116]   // '\t' -> 't'
      [10 := 110]  // '\n' -> 'n'
      [12 := 102]  // '\f' -> 'f'
      [13 := 114]  // '\r' -> 'r'
      [92 := 92]   // '\\' -> '\\'
      [47 := 47]   // '/'  -> '/'
      [34 := 34]   // '"'  -> '"'
  }

  /** The bytes that JSON writes as a backslash followed by one character. */
  const Escapable: set<byte> := {8, 9, 10, 12, 13, 92, 47, 34}

  /** GetEscapeCharacter: the table entry, or the invalid-escape exception for 255. */
  function GetEscapeCharacter(b: byte): (r: Result<byte, Error>)
    ensures r.Ok? <==> b in Escapable
    ensures r.Err? ==> r.error == InvalidEscape(b)
    ensures r.Ok? ==> r.value != 255
  {
    var c := EscapeCharacters()[b];
    if c == 255 then Err(InvalidEscape(b)) else Ok(c)
  }

  /** What a JSON reader maps the character after a backslash back to (the short escapes). */
  function UnescapeCharacter(c: byte): Option<byte>
  {
    if c == 98 then Some(8)
    else if c == 116 then Some(9)
    else if c == 110 then Some(10)
    else if c == 102 then Some(12)
    else if c == 114 then Some(13)
    else if c == 92 then Some(92)
    else if c == 47 then Some(47)
    else if c == 34 then Some(34)
    else None
  }

  /** Every escape the writer emits is read back as the byte it escaped. */
  lemma EscapeCharacterInverse(b: byte)
    requires GetEscapeCharacter(b).Ok?
    ensures UnescapeCharacter(GetEscapeCharacter(b).value) == Some(b)
  {
  }

  /**
   * The bytes of a stored string with its escapes written out. `skips` are
   * the trailer's distances: copy that many payload bytes verbatim, then
   * write the next byte as a backslash and its escape character. On the
   * large-string path (`large`), a run of Cap bytes or more makes the
   * writer's EnsureBuffer raise before the escaped byte is looked at.
   */
  function Expand(p: seq<byte>, skips: seq<nat>, large: bool): Text
    requires Fits(p, skips)
    decreases skips
  {
    if skips == [] then Ok(p)
    else
      var k := skips[0];
      if large && k >= Cap then Err(ValueTooBig)
      else match GetEscapeCharacter(p[k])
        case Err(e) => Err(e)
        case Ok(c) => Prefixed(p[..k] + [Backslash, c], Expand(p[k + 1..], skips[1..], large))
  }

  /**
   * One step of an expansion: the verbatim run `chunk`, then the escaped
   * byte `b`; on the large path a run of Cap bytes or more raises first.
   */
  function RunThenEscape(chunk: seq<byte>, b: byte, large: bool): Text
  {
    if large && |chunk| >= Cap then Err(ValueTooBig)
    else match GetEscapeCharacter(b)
      case Err(e) => Err(e)
      case Ok(c) => Ok(chunk + [Backslash, c])
  }

  /** An expansion is its first step followed by the expansion of the rest. */
  lemma ExpandFirst(p: seq<byte>, skips: seq<nat>, large: bool)
    requires Fits(p, skips) && skips != []
    ensures skips[0] < |p| && Fits(p[skips[0] + 1..], skips[1..])
    ensures Expand(p, skips, large)
         == Concat(RunThenEscape(p[..skips[0]], p[skips[0]], large), Expand(p[skips[0] + 1..], skips[1..], large))
  {
  }

  /**
   * Moving past one step of an expansion at offset `off`, whose run is
   * `run`: a step that succeeds joins the text already done; one that
   * fails is the result.
   */
  lemma ExpandAdvance(p: seq<byte>, off: nat, run: nat, next: nat, rest: seq<nat>, done: seq<byte>, large: bool)
    requires off <= |p| && rest != [] && rest[0] == run && next == off + run + 1 && Fits(p[off..], rest)
    ensures next <= |p| && Fits(p[next..], rest[1..])
    ensures RunThenEscape(p[off..off + run], p[off + run], large).Err? ==>
      Prefixed(done, Expand(p[off..], rest, large)) == RunThenEscape(p[off..off + run], p[off + run], large)
    ensures RunThenEscape(p[off..off + run], p[off + run], large).Ok? ==>
      Prefixed(done, Expand(p[off..], rest, large))
        == Prefixed(done + RunThenEscape(p[off..off + run], p[off + run], large).value, Expand(p[next..], rest[1..], large))
  {
    var tail := p[off..];
    ExpandFirst(tail, rest, large);
    assert tail[..run] == p[off..off + run] && tail[run] == p[off + run] && tail[run + 1..] == p[next..];
    var step := RunThenEscape(p[off..off + run], p[off + run], large);
    if step.Ok? {
      PrefixedTwice(done, step.value, Expand(p[next..], rest[1..], large));
    }
  }

  /** An expansion that succeeds adds exactly one byte per escape. */
  lemma {:induction false} ExpandLength(p: seq<byte>, skips: seq<nat>, large: bool)
    requires Fits(p, skips)
    requires Expand(p, skips, large).Ok?
    ensures |Expand(p, skips, large).value| == |p| + |skips|
    decreases skips
  {
    if skips != [] {
      ExpandLength(p[skips[0] + 1..], skips[1..], large);
    }
  }

  /**
   * The two paths produce the same text, except that the large path may
   * raise ValueTooBig; and when every run is shorter than Cap they agree
   * exactly.
   */
  lemma {:induction false} ExpandPaths(p: seq<byte>, skips: seq<nat>)
    requires Fits(p, skips)
    ensures Expand(p, skips, true) == Expand(p, skips, false) || Expand(p, skips, true) == Err(ValueTooBig)
    ensures (forall i | 0 <= i < |skips| :: skips[i] < Cap) ==> Expand(p, skips, true) == Expand(p, skips, false)
    decreases skips
  {
    if skips != [] {
      var k := skips[0];
      ExpandPaths(p[k + 1..], skips[1..]);
      if forall i | 0 <= i < |skips| :: skips[i] < Cap {
        assert forall i | 0 <= i < |skips[1..]| :: skips[1..][i] < Cap by {
          forall i | 0 <= i < |skips[1..]| ensures skips[1..][i] < Cap {
            assert skips[1..][i] == skips[i + 1];
          }
        }
      }
    }
  }

  // ---------------------------------------------------------------------
  // Reference definitions
  // ---------------------------------------------------------------------

  /** Per-byte JSON escaping: each escapable byte becomes a backslash and its character. */
  function Escaped(p: seq<byte>): seq<byte>
  {
    if p == [] then []
    else
      var head := match GetEscapeCharacter(p[0]) case Ok(c) => [Backslash, c] case Err(_) => [p[0]];
      head + Escaped(p[1..])
  }

  /** A skip list marking every escapable byte: `run` verbatim bytes precede the first escapable one. */
  function SkipsFrom(p: seq<byte>, run: nat): seq<nat>
  {
    if p == [] then []
    else if p[0] in Escapable then [run] + SkipsFrom(p[1..], 0)
    else SkipsFrom(p[1..], run + 1)
  }

  function CanonicalSkips(p: seq<byte>): seq<nat>
  {
    SkipsFrom(p, 0)
  }

  lemma {:induction false} ExpandCanonicalFrom(pre: seq<byte>, p: seq<byte>)
    requires forall i | 0 <= i < |pre| :: pre[i] !in Escapable
    ensures Fits(pre + p, SkipsFrom(p, |pre|))
    ensures Expand(pre + p, SkipsFrom(p, |pre|), false) == Ok(pre + Escaped(p))
    decreases p, 1
  {
    if p == [] {
      assert pre + p == pre;
    } else if p[0] in Escapable {
      EscapedByte(pre, p);
    } else {
      var pre' := pre + [p[0]];
      assert pre' + p[1..] == pre + p;
      assert SkipsFrom(p, |pre|) == SkipsFrom(p[1..], |pre'|);
      ExpandCanonicalFrom(pre', p[1..]);
      assert Escaped(p) == [p[0]] + Escaped(p[1..]);
      SeqAssoc(pre, [p[0]], Escaped(p[1..]));
    }
  }

  /** The step of ExpandCanonicalFrom where the next payload byte is escapable. */
  lemma {:induction false} EscapedByte(pre: seq<byte>, p: seq<byte>)
    requires forall i | 0 <= i < |pre| :: pre[i] !in Escapable
    requires p != [] && p[0] in Escapable
    ensures Fits(pre + p, SkipsFrom(p, |pre|))
    ensures Expand(pre + p, SkipsFrom(p, |pre|), false) == Ok(pre + Escaped(p))
    decreases p, 0
  {
    var s := pre + p;
    var rest := SkipsFrom(p[1..], 0);
    var c := GetEscapeCharacter(p[0]).value;
    ExpandCanonicalFrom([], p[1..]);
    assert [] + p[1..] == p[1..] && [] + Escaped(p[1..]) == Escaped(p[1..]);
    assert s[|pre| + 1..] == p[1..];
    assert s[..|pre|] == pre;
    ExpandStep(s, |pre|, rest, false);
    assert Escaped(p) == [Backslash, c] + Escaped(p[1..]);
    SeqAssoc(pre, [Backslash, c], Escaped(p[1..]));
  }

  /** One step of Expand: a run, then an escapable byte. */
  lemma ExpandStep(s: seq<byte>, k: nat, rest: seq<nat>, large: bool)
    requires k < |s| && Fits(s[k + 1..], rest)
    requires !(large && k >= Cap) && GetEscapeCharacter(s[k]).Ok?
    ensures Fits(s, [k] + rest)
    ensures Expand(s, [k] + rest, large) == Prefixed(s[..k] + [Backslash, GetEscapeCharacter(s[k]).value], Expand(s[k + 1..], rest, large))
  {
    assert ([k] + rest)[1..] == rest;
  }

  /** Expanding a payload by the skip list that marks every escapable byte yields its per-byte JSON escaping. */
  lemma ExpandCanonical(p: seq<byte>)
    ensures Fits(p, CanonicalSkips(p))
    ensures Expand(p, CanonicalSkips(p), false) == Ok(Escaped(p))
  {
    assert [] + p == p;
    ExpandCanonicalFrom([], p);
    assert [] + Escaped(p) == Escaped(p);
  }

  /** How a JSON reader decodes the short escapes; None for a dangling or unknown escape. */
  function Unescape(t: seq<byte>): Option<seq<byte>>
  {
    if t == [] then Some([])
    else if t[0] != Backslash then
      match Unescape(t[1..])
      case None => None
      case Some(rest) => Some([t[0]] + rest)
    else if |t| < 2 then None
    else match UnescapeCharacter(t[1])
      case None => None
      case Some(b) =>
        match Unescape(t[2..])
        case None => None
        case Some(rest) => Some([b] + rest)
  }

  /** Reading the escaped text back gives the original payload. */
  lemma {:induction false} UnescapeEscaped(p: seq<byte>)
    ensures Unescape(Escaped(p)) == Some(p)
    decreases p
  {
    if p != [] {
      UnescapeEscaped(p[1..]);
      var t := Escaped(p);
      if p[0] in Escapable {
        assert t[2..] == Escaped(p[1..]);
      } else {
        assert t[1..] == Escaped(p[1..]);
      }
      assert [p[0]] + p[1..] == p;
    }
  }
}
