/** JSON Pointers as section 3 and section 4 of RFC 6901 describe them: escaping, parsing, prefixes. */
module JsonPointer {
  import opened Ordering
  import opened Outcomes

  datatype PointerError = InvalidPointer | MissingTarget | InvalidArrayIndex | UnsafeSegment

  // ----- escaping one segment -------------------------------------------------------

  /** Every occurrence of a character replaced. */
  function ReplaceChar(s: string, c: char, replacement: string): string {
    if s == [] then [] else (if s[0] == c then replacement else [s[0]]) + ReplaceChar(s[1..], c, replacement)
  }

  /** Every occurrence of the two characters `a`, `b` replaced, left to right. */
  function ReplacePair(s: string, a: char, b: char, replacement: char): string {
    if s == [] then []
    else if |s| >= 2 && s[0] == a && s[1] == b then [replacement] + ReplacePair(s[2..], a, b, replacement)
    else [s[0]] + ReplacePair(s[1..], a, b, replacement)
  }

  function EscapePointer(s: string): string {
    ReplaceChar(ReplaceChar(s, '~', "~0"), '/', "~1")
  }

  /** Every tilde is followed by a zero or a one. */
  predicate WellEscaped(s: string) {
    forall i :: 0 <= i < |s| && s[i] == '~' ==> i + 1 < |s| && (s[i + 1] == '0' || s[i + 1] == '1')
  }

  function Unescape(s: string): string {
    ReplacePair(ReplacePair(s, '~', '1', '/'), '~', '0', '~')
  }

  predicate Unsafe(segment: string) {
    segment == "__proto__" || segment == "prototype" || segment == "constructor"
  }

  function DecodeSegment(s: string): Result<string, PointerError> {
    if !WellEscaped(s) then Err(InvalidPointer)
    else if Unsafe(Unescape(s)) then Err(UnsafeSegment)
    else Ok(Unescape(s))
  }

  // Escaping seen one character at a time.

  function EscapeChar(c: char): string {
    if c == '~' then "~0" else if c == '/' then "~1" else [c]
  }

  function EscapeEach(s: string): string {
    if s == [] then [] else EscapeChar(s[0]) + EscapeEach(s[1..])
  }

  lemma {:induction false} EscapeIsPerCharacter(s: string)
    ensures EscapePointer(s) == EscapeEach(s)
  {
    if s != [] {
      EscapeIsPerCharacter(s[1..]);
      var rest := ReplaceChar(s[1..], '~', "~0");
      if s[0] == '~' {
        var escaped := ReplaceChar(rest, '/', "~1");
        assert ("~0" + rest)[1..] == "0" + rest && ("0" + rest)[1..] == rest;
        assert ReplaceChar("0" + rest, '/', "~1") == "0" + escaped;
        assert ReplaceChar("~0" + rest, '/', "~1") == "~" + ("0" + escaped);
        assert "~" + ("0" + escaped) == "~0" + escaped;
      } else {
        assert ([s[0]] + rest)[1..] == rest;
      }
    }
  }

  lemma {:induction false} EscapedIsWellFormed(s: string)
    ensures WellEscaped(EscapeEach(s)) && '/' !in EscapeEach(s)
  {
    if s != [] {
      EscapedIsWellFormed(s[1..]);
      var rest := EscapeEach(s[1..]);
      var e := EscapeChar(s[0]);
      forall i | 0 <= i < |e + rest| && (e + rest)[i] == '~'
        ensures i + 1 < |e + rest| && ((e + rest)[i + 1] == '0' || (e + rest)[i + 1] == '1')
      {
        if i >= |e| {
          assert rest[i - |e|] == '~';
        }
      }
    }
  }

  lemma {:induction false} UnescapeEscapes(s: string)
    ensures Unescape(EscapeEach(s)) == s
  {
    if s != [] {
      UnescapeEscapes(s[1..]);
      var rest := EscapeEach(s[1..]);
      var half := ReplacePair(rest, '~', '1', '/');
      if s[0] == '~' {
        assert ("~0" + rest)[1..] == "0" + rest && ("0" + rest)[1..] == rest;
        assert ReplacePair("~0" + rest, '~', '1', '/') == "~" + ("0" + half);
        assert ("~" + ("0" + half))[2..] == half;
      } else if s[0] == '/' {
        assert ("~1" + rest)[2..] == rest;
        assert ReplacePair("~1" + rest, '~', '1', '/') == "/" + half;
        assert ("/" + half)[1..] == half;
      } else {
        assert ([s[0]] + rest)[1..] == rest;
        assert ReplacePair([s[0]] + rest, '~', '1', '/') == [s[0]] + half;
        assert ([s[0]] + half)[1..] == half;
      }
      assert s == [s[0]] + s[1..];
    }
  }

  /** The text a well-escaped segment stands for, one escape at a time. */
  function Decoded(t: string): string {
    if t == [] then []
    else if |t| >= 2 && t[0] == '~' then [if t[1] == '1' then '/' else '~'] + Decoded(t[2..])
    else [t[0]] + Decoded(t[1..])
  }

  lemma {:induction false} WellEscapedIsEscaped(t: string)
    requires WellEscaped(t) && '/' !in t
    ensures EscapeEach(Decoded(t)) == t
  {
    if t != [] {
      if t[0] == '~' {
        assert forall i :: 0 <= i < |t| - 2 ==> t[2..][i] == t[i + 2];
        WellEscapedIsEscaped(t[2..]);
        assert Decoded(t)[1..] == Decoded(t[2..]);
        assert t == [t[0]] + [t[1]] + t[2..];
      } else {
        assert forall i :: 0 <= i < |t| - 1 ==> t[1..][i] == t[i + 1];
        WellEscapedIsEscaped(t[1..]);
        assert t[0] != '/';
        assert Decoded(t)[1..] == Decoded(t[1..]);
        assert t == [t[0]] + t[1..];
      }
    }
  }

  /** Escaping and unescaping are inverse: on every text one way, on every escaped segment the other. */
  lemma EscapeRoundTrip(s: string, t: string)
    ensures WellEscaped(EscapePointer(s)) && '/' !in EscapePointer(s) && Unescape(EscapePointer(s)) == s
    ensures WellEscaped(t) && '/' !in t ==> EscapePointer(Unescape(t)) == t
  {
    EscapeIsPerCharacter(s);
    EscapedIsWellFormed(s);
    UnescapeEscapes(s);
    if WellEscaped(t) && '/' !in t {
      WellEscapedIsEscaped(t);
      UnescapeEscapes(Decoded(t));
      EscapeIsPerCharacter(Decoded(t));
    }
  }

  // ----- splitting ------------------------------------------------------------------

  /** The pieces between slashes; never empty. */
  function Split(s: string): (pieces: seq<string>)
    ensures pieces != []
  {
    if s == [] then [""] else Prepend(s[0], Split(s[1..]))
  }

  /** The pieces of a text with one more character in front. */
  function Prepend(c: char, pieces: seq<string>): (r: seq<string>)
    requires pieces != []
    ensures r != []
  {
    if c == '/' then [""] + pieces else [[c] + pieces[0]] + pieces[1..]
  }

  lemma PrependConcat(c: char, a: seq<string>, b: seq<string>)
    requires a != []
    ensures Prepend(c, a + b) == Prepend(c, a) + b
  {
    if c != '/' {
      assert (a + b)[0] == a[0] && (a + b)[1..] == a[1..] + b;
    }
  }

  /** The pieces, each after a slash. */
  function Joined(pieces: seq<string>): string {
    if pieces == [] then [] else "/" + pieces[0] + Joined(pieces[1..])
  }

  lemma {:induction false} SplitThenJoin(s: string)
    ensures Joined(Split(s)) == "/" + s
    ensures forall p :: p in Split(s) ==> '/' !in p
  {
    if s != [] {
      SplitThenJoin(s[1..]);
      var rest := Split(s[1..]);
      assert Joined(rest) == "/" + rest[0] + Joined(rest[1..]);
      assert s == [s[0]] + s[1..];
      if s[0] == '/' {
        assert ([""] + rest)[1..] == rest;
      } else {
        assert ([[s[0]] + rest[0]] + rest[1..])[1..] == rest[1..];
        assert "/" + ([s[0]] + rest[0]) + Joined(rest[1..]) == "/" + ([s[0]] + (rest[0] + Joined(rest[1..])));
        assert rest[0] + Joined(rest[1..]) == s[1..] by {
          assert Joined(rest)[1..] == rest[0] + Joined(rest[1..]);
        }
      }
    }
  }

  lemma {:induction false} SplitConcat(a: string, b: string)
    ensures Split(a + "/" + b) == Split(a) + Split(b)
  {
    var whole := a + "/" + b;
    if a == [] {
      assert whole[1..] == b;
    } else {
      SplitConcat(a[1..], b);
      assert whole[1..] == a[1..] + "/" + b && whole[0] == a[0];
      PrependConcat(a[0], Split(a[1..]), Split(b));
      hide Prepend;
    }
  }

  lemma {:induction false} SplitPlain(a: string)
    requires '/' !in a
    ensures Split(a) == [a]
  {
    if a != [] {
      assert a[0] in a;
      assert forall c :: c in a[1..] ==> c in a;
      SplitPlain(a[1..]);
      assert a == [a[0]] + a[1..];
    }
  }

  lemma {:induction false} JoinThenSplit(pieces: seq<string>)
    requires pieces != [] && forall p :: p in pieces ==> '/' !in p
    ensures Joined(pieces) != [] && Joined(pieces)[0] == '/' && Split(Joined(pieces)[1..]) == pieces
  {
    var first, rest := pieces[0], pieces[1..];
    SplitPlain(first);
    if rest == [] {
      assert Joined(pieces)[1..] == first;
      assert pieces == [first];
    } else {
      JoinThenSplit(rest);
      assert Joined(rest) == "/" + Joined(rest)[1..];
      assert Joined(pieces)[1..] == first + "/" + Joined(rest)[1..];
      SplitConcat(first, Joined(rest)[1..]);
      assert pieces == [first] + rest;
    }
  }

  // ----- parsing and printing -------------------------------------------------------

  function DecodeAll(pieces: seq<string>): Result<seq<string>, PointerError> {
    if pieces == [] then Ok([])
    else
      var front := DecodeAll(pieces[..|pieces| - 1]);
      if front.Err? then front
      else
        var last := DecodeSegment(pieces[|pieces| - 1]);
        if last.Err? then Err(last.error) else Ok(front.value + [last.value])
  }

  function ParseJsonPointer(pointer: string): Result<seq<string>, PointerError> {
    if pointer == [] || pointer[0] != '/' || pointer == "/" then Err(InvalidPointer) else DecodeAll(Split(pointer[1..]))
  }

  function EscapeAll(segments: seq<string>): seq<string> {
    seq(|segments|, i requires 0 <= i < |segments| => EscapePointer(segments[i]))
  }

  function PrintPointer(segments: seq<string>): string {
    Joined(EscapeAll(segments))
  }

  /** The segment lists a pointer can name. */
  predicate Addressable(segments: seq<string>) {
    segments != [] && segments != [""] && forall s :: s in segments ==> !Unsafe(s)
  }

  lemma {:induction false} DecodeAllExact(pieces: seq<string>)
    ensures DecodeAll(pieces).Ok? <==> forall i :: 0 <= i < |pieces| ==> DecodeSegment(pieces[i]).Ok?
    ensures DecodeAll(pieces).Ok? ==>
      |DecodeAll(pieces).value| == |pieces|
      && forall i :: 0 <= i < |pieces| ==> DecodeAll(pieces).value[i] == Unescape(pieces[i])
  {
    if pieces != [] {
      DecodeAllExact(pieces[..|pieces| - 1]);
      hide Unescape, WellEscaped, Unsafe;
    }
  }

  /** Parsing a printed pointer gives the segments back. */
  lemma ParseThePrinted(segments: seq<string>)
    requires Addressable(segments)
    ensures ParseJsonPointer(PrintPointer(segments)) == Ok(segments)
  {
    var pieces := EscapeAll(segments);
    forall i | 0 <= i < |pieces| ensures DecodeSegment(pieces[i]) == Ok(segments[i]) && '/' !in pieces[i] {
      EscapeRoundTrip(segments[i], "");
      assert segments[i] in segments;
    }
    hide EscapePointer, Unescape, WellEscaped, Unsafe;
    JoinThenSplit(pieces);
    DecodeAllExact(pieces);
    NotJustASlash(segments);
    assert DecodeAll(pieces).value == segments;
  }

  lemma NotJustASlash(segments: seq<string>)
    requires Addressable(segments)
    ensures PrintPointer(segments) != "/"
  {
    var pieces := EscapeAll(segments);
    EscapeRoundTrip(segments[0], "");
    assert Joined(pieces) == "/" + pieces[0] + Joined(pieces[1..]);
    if |segments| > 1 {
      assert Joined(pieces[1..]) == "/" + pieces[1..][0] + Joined(pieces[1..][1..]);
    } else {
      assert segments == [segments[0]];
      assert Unescape("") == "";
    }
  }

  /** Printing the segments of an accepted pointer gives its text back. */
  lemma PrintTheParsed(pointer: string)
    requires ParseJsonPointer(pointer).Ok?
    ensures PrintPointer(ParseJsonPointer(pointer).value) == pointer
    ensures Addressable(ParseJsonPointer(pointer).value)
  {
    var pieces := Split(pointer[1..]);
    var segments := DecodeAll(pieces).value;
    DecodeAllExact(pieces);
    SplitThenJoin(pointer[1..]);
    hide Split, Joined, DecodeAll;
    forall i | 0 <= i < |pieces| ensures EscapePointer(segments[i]) == pieces[i] && !Unsafe(segments[i]) {
      assert DecodeSegment(pieces[i]).Ok? && pieces[i] in pieces;
      EscapeRoundTrip("", pieces[i]);
    }
    hide EscapePointer, Unescape, WellEscaped, Unsafe;
    assert EscapeAll(segments) == pieces;
    assert pointer == "/" + pointer[1..];
    if segments == [""] {
      SlashIsRejected(pieces, pointer);
    }
  }

  lemma SlashIsRejected(pieces: seq<string>, pointer: string)
    requires pieces == EscapeAll([""]) && Joined(pieces) == pointer
    ensures pointer == "/"
  {
    assert EscapePointer("") == "";
    assert pieces == [""];
    assert Joined([""]) == "/" + "" + Joined([""][1..]);
  }

  /** A pointer is accepted exactly when it is the print of an addressable list. */
  lemma AcceptedIffPrinted(pointer: string)
    ensures ParseJsonPointer(pointer).Ok? <==>
      exists segments :: Addressable(segments) && pointer == PrintPointer(segments)
  {
    if ParseJsonPointer(pointer).Ok? {
      PrintTheParsed(pointer);
    }
    if segments :| Addressable(segments) && pointer == PrintPointer(segments) {
      ParseThePrinted(segments);
    }
  }

  /** Printing and parsing give a list back exactly when it is neither empty nor the one empty segment, and has no
      segment that a JavaScript object reserves. */
  lemma PrintableIff(segments: seq<string>)
    ensures ParseJsonPointer(PrintPointer(segments)) == Ok(segments) <==>
      && segments != [] && segments != [""]
      && forall s :: s in segments ==> s != "__proto__" && s != "prototype" && s != "constructor"
  {
    assert Addressable(segments) <==>
      && segments != [] && segments != [""]
      && forall s :: s in segments ==> s != "__proto__" && s != "prototype" && s != "constructor";
    hide ParseJsonPointer, PrintPointer, Addressable;
    if Addressable(segments) {
      ParseThePrinted(segments);
    } else if ParseJsonPointer(PrintPointer(segments)) == Ok(segments) {
      PrintTheParsed(PrintPointer(segments));
    }
  }

  /** The first piece that cannot be decoded: badly escaped, or a reserved name once decoded. */
  ghost predicate FirstBad(pieces: seq<string>, i: int, error: PointerError) {
    && 0 <= i < |pieces| && (forall j :: 0 <= j < i ==> DecodeSegment(pieces[j]).Ok?)
    && if WellEscaped(pieces[i]) then error == UnsafeSegment && Unsafe(Unescape(pieces[i])) else error == InvalidPointer
  }

  lemma {:induction false} DecodingFailsWith(pieces: seq<string>)
    requires DecodeAll(pieces).Err?
    ensures exists i :: FirstBad(pieces, i, DecodeAll(pieces).error)
  {
    hide Unsafe, WellEscaped, Unescape;
    var last := |pieces| - 1;
    var front := pieces[..last];
    if DecodeAll(front).Err? {
      DecodingFailsWith(front);
      var i :| FirstBad(front, i, DecodeAll(front).error);
      assert front[i] == pieces[i];
      assert FirstBad(pieces, i, DecodeAll(pieces).error);
    } else {
      DecodeAllExact(front);
      forall j | 0 <= j < last ensures DecodeSegment(pieces[j]).Ok? {
        assert front[j] == pieces[j];
      }
      assert FirstBad(pieces, last, DecodeAll(pieces).error);
    }
  }

  /** A refused pointer does not start with a slash or is only that; or its first bad segment is badly escaped or
      reserved. */
  lemma ParseFailsWith(pointer: string)
    requires ParseJsonPointer(pointer).Err?
    ensures var error := ParseJsonPointer(pointer).error;
      if StartsWith(pointer, "/") && pointer != "/" then exists i :: FirstBad(Split(pointer[1..]), i, error)
      else error == InvalidPointer
  {
    hide Split, DecodeAll, FirstBad;
    if StartsWith(pointer, "/") && pointer != "/" {
      DecodingFailsWith(Split(pointer[1..]));
    }
  }

  // ----- prefixes -------------------------------------------------------------------

  predicate StartsWith(s: string, prefix: string) {
    |prefix| <= |s| && s[..|prefix|] == prefix
  }

  /** The test the contract uses, on texts. */
  predicate WithinPrefix(path: string, prefix: string) {
    path == prefix || StartsWith(path, prefix + "/")
  }

  lemma {:induction false} JoinedConcat(a: seq<string>, b: seq<string>)
    ensures Joined(a + b) == Joined(a) + Joined(b)
  {
    if a == [] {
      assert a + b == b;
    } else {
      JoinedConcat(a[1..], b);
      assert (a + b)[1..] == a[1..] + b;
    }
  }

  /** On accepted pointers the text test is the prefix relation of the segment lists. */
  lemma WithinIsSegmentPrefix(path: string, prefix: string)
    requires ParseJsonPointer(path).Ok? && ParseJsonPointer(prefix).Ok?
    ensures WithinPrefix(path, prefix) <==> IsPrefix(ParseJsonPointer(prefix).value, ParseJsonPointer(path).value)
  {
    var p, q := ParseJsonPointer(path).value, ParseJsonPointer(prefix).value;
    PrintTheParsed(path);
    PrintTheParsed(prefix);
    if IsPrefix(q, p) {
      PrefixIsWithin(p, q);
    }
    if WithinPrefix(path, prefix) && path != prefix {
      WithinIsPrefix(path, prefix);
    }
  }

  lemma PrefixIsWithin(p: seq<string>, q: seq<string>)
    requires IsPrefix(q, p)
    ensures WithinPrefix(PrintPointer(p), PrintPointer(q))
  {
    var rest := p[|q|..];
    hide EscapePointer;
    assert p == q + rest;
    assert EscapeAll(p) == EscapeAll(q) + EscapeAll(rest);
    JoinedConcat(EscapeAll(q), EscapeAll(rest));
    if rest == [] {
      assert p == q;
    } else {
      var tail := PrintPointer(rest);
      assert tail == "/" + (EscapeAll(rest)[0] + Joined(EscapeAll(rest)[1..]));
      assert PrintPointer(p)[..|PrintPointer(q)| + 1] == PrintPointer(q) + "/";
    }
  }

  lemma WithinIsPrefix(path: string, prefix: string)
    requires ParseJsonPointer(path).Ok? && ParseJsonPointer(prefix).Ok? && StartsWith(path, prefix + "/")
    ensures IsPrefix(ParseJsonPointer(prefix).value, ParseJsonPointer(path).value)
  {
    var rest := path[|prefix| + 1..];
    assert path == prefix + "/" + rest;
    assert path[1..] == prefix[1..] + "/" + rest;
    SplitConcat(prefix[1..], rest);
    var a, b := Split(prefix[1..]), Split(path[1..]);
    DecodeAllExact(a);
    DecodeAllExact(b);
    hide Split, DecodeAll, Unescape;
    assert b[..|a|] == a;
    var q, p := DecodeAll(a).value, DecodeAll(b).value;
    forall i | 0 <= i < |q| ensures p[i] == q[i] {
      assert b[i] == b[..|a|][i];
    }
  }

  /** Tilde and slash are written as section 3 of RFC 6901 says, and every other character as itself. */
  lemma EscapeMeans(s: string, c: char, t: string)
    ensures EscapePointer("~") == "~0" && EscapePointer("/") == "~1"
    ensures c != '~' && c != '/' ==> EscapePointer([c]) == [c]
    ensures EscapePointer(s + t) == EscapePointer(s) + EscapePointer(t)
  {
    EscapeIsPerCharacter("~");
    EscapeIsPerCharacter("/");
    EscapeIsPerCharacter([c]);
    assert "~"[1..] == "" && "/"[1..] == "" && [c][1..] == "";
    EscapeIsPerCharacter(s);
    EscapeIsPerCharacter(t);
    EscapeIsPerCharacter(s + t);
    EscapeConcat(s, t);
  }

  lemma {:induction false} EscapeConcat(s: string, t: string)
    ensures EscapeEach(s + t) == EscapeEach(s) + EscapeEach(t)
    decreases |s|
  {
    if s == [] {
      assert s + t == t;
    } else {
      EscapeConcat(s[1..], t);
      assert (s + t)[1..] == s[1..] + t;
    }
  }
}
