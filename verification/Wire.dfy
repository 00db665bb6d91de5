/** The reply lines of holder_server.py: one JSON object per line, as json.dumps writes it. */
module Wire {
  import opened Bytes
  import opened Digits

  datatype Reply = Pong | ShareReply(x: Byte, y: Blob)

  /** The reply object of _handle_connection. */
  function Encode(r: Reply): string {
    match r
    case Pong => "{\"pong\": true}"
    case ShareReply(x, y) => SHARE_HEAD + Decimal(x) + SHARE_MIDDLE + Hex(y) + SHARE_END
  }

  function Line(r: Reply): string {
    Encode(r) + "\n"
  }

  // ---------------------------------------------------------------- reading back

  /** Different replies have different text. */
  lemma EncodeInjective(r: Reply, s: Reply)
    requires Encode(r) == Encode(s)
    ensures r == s
  {
    assert Encode(r)[2] == if r.Pong? then 'p' else 'x';
    assert Encode(s)[2] == if s.Pong? then 'p' else 'x';
    if r.ShareReply? && s.ShareReply? {
      ShareTextInjective(Decimal(r.x), Hex(r.y), Decimal(s.x), Hex(s.y));
      DecimalRoundTrip(r.x);
      DecimalRoundTrip(s.x);
      HexRoundTrip(r.y);
      HexRoundTrip(s.y);
    }
  }

  const SHARE_HEAD := "{\"x\": "
  const SHARE_MIDDLE := ", \"share_hex\": \""
  const SHARE_END := "\"}"

  lemma ShareTextInjective(d: string, h: string, d': string, h': string)
    requires ',' !in d && ',' !in d' && '\"' !in h && '\"' !in h'
    requires SHARE_HEAD + d + SHARE_MIDDLE + h + SHARE_END == SHARE_HEAD + d' + SHARE_MIDDLE + h' + SHARE_END
    ensures d == d' && h == h'
  {
    var u, u' := SHARE_MIDDLE[1..] + (h + SHARE_END), SHARE_MIDDLE[1..] + (h' + SHARE_END);
    var t := SHARE_HEAD + d + SHARE_MIDDLE + h + SHARE_END;
    assert t[|SHARE_HEAD|..] == d + [','] + u;
    assert t[|SHARE_HEAD|..] == d' + [','] + u';
    SplitAtSeparator(d, d', u, u', ',');
    assert u[|SHARE_MIDDLE| - 1..] == h + ['\"'] + "}";
    assert u'[|SHARE_MIDDLE| - 1..] == h' + ['\"'] + "}";
    SplitAtSeparator(h, h', "}", "}", '\"');
  }

  /** The shape json.dumps gives every reply: braces only around it, no line break inside. */
  lemma EncodeShape(r: Reply)
    ensures var e := Encode(r);
      && |e| >= 2 && e[0] == '{' && e[|e| - 1] == '}' && '\n' !in e
      && (forall i :: 0 < i < |e| ==> e[i] != '{')
      && (forall i :: 0 <= i < |e| - 1 ==> e[i] != '}')
  {
    if r.ShareReply? {
      var e, d, h := Encode(r), Decimal(r.x), Hex(r.y);
      var head, mid, end := SHARE_HEAD, SHARE_MIDDLE, SHARE_END;
      assert e == head + d + mid + h + end;
      forall i | 0 <= i < |e|
        ensures e[i] != '\n' && (e[i] == '{' ==> i == 0) && (e[i] == '}' ==> i == |e| - 1)
      {
        var a, b, c := |head| + |d|, |head| + |d| + |mid|, |head| + |d| + |mid| + |h|;
        if i < |head| {
          assert e[i] == head[i];
        } else if i < a {
          assert e[i] == d[i - |head|] && e[i] in d;
        } else if i < b {
          assert e[i] == mid[i - a];
        } else if i < c {
          assert e[i] == h[i - b] && e[i] in h;
        } else {
          assert e[i] == end[i - c];
        }
      }
    }
  }

  // ---------------------------------------------------------------- a stream of replies

  /** Everything a holder has written on its connection. */
  function Text(sent: seq<Reply>): string {
    if sent == [] then "" else Line(sent[0]) + Text(sent[1..])
  }

  lemma {:induction false} TextAppend(sent: seq<Reply>, r: Reply)
    ensures Text(sent + [r]) == Text(sent) + Line(r)
    decreases |sent|
  {
    if sent == [] {
      assert (sent + [r])[1..] == [];
    } else {
      assert (sent + [r])[1..] == sent[1..] + [r];
      TextAppend(sent[1..], r);
    }
  }

  predicate EndsLine(s: string) {
    s != "" && s[|s| - 1] == '\n'
  }

  /** Every line break in a stream follows a closing brace. */
  lemma {:induction false} BreakFollowsBrace(sent: seq<Reply>, b: nat)
    requires 0 < b <= |Text(sent)| && Text(sent)[b - 1] == '\n'
    ensures b >= 2 && Text(sent)[b - 2] == '}'
    decreases |sent|
  {
    hide Encode;
    EncodeShape(sent[0]);
    var n := |Line(sent[0])|;
    if b > n {
      assert Text(sent)[b - 1] == Text(sent[1..])[b - n - 1];
      BreakFollowsBrace(sent[1..], b - n);
    }
  }

  // ---------------------------------------------------------------- json.loads

  predicate IsSpace(c: char) {
    c == ' ' || c == '\t' || c == '\n' || c == '\r'
  }

  predicate Blank(s: string) {
    forall i :: 0 <= i < |s| ==> IsSpace(s[i])
  }

  /** The result of json.loads: one of the reply objects, some other value, or ValueError. */
  datatype LoadResult = Loaded(reply: Reply) | OtherJson | ValueError

  /** Text e with white space around. */
  predicate Wraps(s: string, p: nat, e: string) {
    p + |e| <= |s| && s[p..p + |e|] == e && Blank(s[..p]) && Blank(s[p + |e|..])
  }

  ghost predicate IsReply(s: string, r: Reply) {
    exists p: nat :: Wraps(s, p, Encode(r))
  }

  ghost predicate OpensFirst(s: string) {
    exists i :: 0 <= i < |s| && s[i] == '{' && Blank(s[..i])
  }

  ghost predicate ClosesLast(s: string) {
    exists i :: 0 <= i < |s| && s[i] == '}' && Blank(s[i + 1..])
  }

  ghost predicate Extends(f: string -> LoadResult, u: string, v: string) {
    u != "" && u[|u| - 1] == '}' && !f(u).ValueError? && !f(u + v).ValueError?
  }

  /** What sections 2 to 4 of RFC 8259 say about accepted texts, as far as a stream of replies needs
      it: the text of a reply is read as that reply; white space alone is no text; only an object,
      which opens with a brace, closes with one; and after it only white space may follow. */
  ghost predicate LoaderLaw(f: string -> LoadResult) {
    && (forall s, r :: IsReply(s, r) ==> f(s) == Loaded(r))
    && (forall s :: Blank(s) ==> f(s) == ValueError)
    && (forall s :: ClosesLast(s) && !f(s).ValueError? ==> OpensFirst(s))
    && (forall u, v :: Extends(f, u, v) ==> Blank(v))
  }

  type Loader = f: string -> LoadResult | LoaderLaw(f) ghost witness StrictLoader()

  lemma ReplyLoads(loads: Loader, s: string, r: Reply)
    requires IsReply(s, r)
    ensures loads(s) == Loaded(r)
  {
    hide IsReply;
  }

  lemma BlankFails(loads: Loader, s: string)
    requires Blank(s)
    ensures loads(s) == ValueError
  {
    hide IsReply, Blank;
  }

  lemma CloserOpens(loads: Loader, s: string)
    requires ClosesLast(s) && !loads(s).ValueError?
    ensures OpensFirst(s)
  {
    hide IsReply, Blank, OpensFirst, ClosesLast;
  }

  lemma NothingFollows(loads: Loader, u: string, v: string)
    requires Extends(loads, u, v)
    ensures Blank(v)
  {
    hide IsReply, Blank, OpensFirst, ClosesLast, Extends;
  }

  // ---------------------------------------------------------------- white space around a reply

  lemma Spaces()
    ensures !IsSpace('{') && !IsSpace('}') && IsSpace('\n')
  {
  }

  lemma Blanks()
    ensures Blank("") && Blank("\n")
  {
  }

  lemma BlankAppend(u: string, v: string)
    requires Blank(u) && Blank(v)
    ensures Blank(u + v)
  {
  }

  lemma BlankAt(s: string, i: nat)
    requires Blank(s) && i < |s|
    ensures IsSpace(s[i])
  {
  }

  /** What is not white space lies neither in a blank beginning nor in a blank end. */
  lemma NotBefore(s: string, n: nat, i: nat)
    requires n <= |s| && i < |s| && Blank(s[..n]) && !IsSpace(s[i])
    ensures i >= n
  {
    hide *;
    if i < n {
      BlankAt(s[..n], i);
    }
  }

  lemma NotBehind(s: string, n: nat, i: nat)
    requires n <= |s| && i < |s| && Blank(s[n..]) && !IsSpace(s[i])
    ensures i < n
  {
    hide *;
    if i >= n {
      BlankAt(s[n..], i - n);
    }
  }

  lemma ReplyAt(s: string, p: nat, r: Reply)
    requires Wraps(s, p, Encode(r))
    ensures IsReply(s, r)
  {
    hide Wraps, Encode;
  }

  lemma WrapsBy(u: string, e: string, v: string)
    requires Blank(u) && Blank(v)
    ensures Wraps(u + e + v, |u|, e)
  {
    var s := u + e + v;
    assert s[..|u|] == u && s[|u| + |e|..] == v;
  }

  // ---------------------------------------------------------------- the law can be met

  ghost function StrictLoad(s: string): (d: LoadResult)
    ensures d.Loaded? ==> IsReply(s, d.reply)
    ensures !d.OtherJson? && (d.ValueError? ==> forall r :: !IsReply(s, r))
  {
    if exists r :: IsReply(s, r) then
      var r :| IsReply(s, r);
      Loaded(r)
    else ValueError
  }

  /** Shows that the law can be met: a loader that accepts nothing but replies. */
  ghost function StrictLoader(): (f: string -> LoadResult)
    ensures LoaderLaw(f)
  {
    StrictLoadObeys();
    s => StrictLoad(s)
  }

  lemma StrictLoadObeys()
    ensures LoaderLaw(s => StrictLoad(s))
  {
    var f := s => StrictLoad(s);
    hide IsReply, Encode, OpensFirst, ClosesLast, Blank, StrictLoad;
    forall s, r | IsReply(s, r) ensures f(s) == Loaded(r) {
      OneReply(s, r, StrictLoad(s).reply);
    }
    forall s | Blank(s) ensures f(s) == ValueError {
      if f(s).Loaded? {
        ReplyOpens(s, f(s).reply);
      }
    }
    forall s | ClosesLast(s) && !f(s).ValueError? ensures OpensFirst(s) {
      ReplyOpens(s, f(s).reply);
    }
    forall u, v | Extends(f, u, v) ensures Blank(v) {
      OnlyBlankFollows(u, v, f(u).reply, f(u + v).reply);
    }
  }

  lemma ReplyOpens(s: string, r: Reply)
    requires IsReply(s, r)
    ensures OpensFirst(s) && !Blank(s)
  {
    EncodeShape(r);
    hide Encode;
    var p: nat :| Wraps(s, p, Encode(r));
    assert s[p] == Encode(r)[0];
  }

  /** Where a wrapped object starts and ends is determined. */
  lemma WrapsOnce(s: string, p: nat, e: string, p': nat, e': string)
    requires Wraps(s, p, e) && Wraps(s, p', e')
    requires e != "" && e[0] == '{' && e[|e| - 1] == '}' && e' != "" && e'[0] == '{' && e'[|e'| - 1] == '}'
    ensures p == p' && e == e'
  {
    var q, q' := p + |e|, p' + |e'|;
    assert s[p] == e[0] && s[p'] == e'[0] && s[q - 1] == e[|e| - 1] && s[q' - 1] == e'[|e'| - 1];
    hide Blank, IsSpace;
    Spaces();
    NotBefore(s, p, p');
    NotBefore(s, p', p);
    NotBehind(s, q, q' - 1);
    NotBehind(s, q', q - 1);
  }

  lemma OneReply(s: string, r: Reply, r': Reply)
    requires IsReply(s, r) && IsReply(s, r')
    ensures r == r'
  {
    EncodeShape(r);
    EncodeShape(r');
    hide Encode, Wraps;
    var p: nat :| Wraps(s, p, Encode(r));
    var p': nat :| Wraps(s, p', Encode(r'));
    WrapsOnce(s, p, Encode(r), p', Encode(r'));
    EncodeInjective(r, r');
  }

  lemma OnlyBlankFollows(u: string, v: string, r: Reply, r': Reply)
    requires u != "" && u[|u| - 1] == '}' && IsReply(u, r) && IsReply(u + v, r')
    ensures Blank(v)
  {
    EncodeShape(r);
    EncodeShape(r');
    var p: nat :| Wraps(u, p, Encode(r));
    var p': nat :| Wraps(u + v, p', Encode(r'));
    hide *;
    WrapsEnd(u, p, Encode(r));
    WrapsStart(u, v, p, Encode(r), p', Encode(r'));
    WrapsRest(u, v, p, Encode(r), Encode(r'));
  }

  lemma WrapsEnd(u: string, p: nat, e: string)
    requires Wraps(u, p, e) && u != "" && u[|u| - 1] == '}'
    ensures p + |e| == |u|
  {
    hide Blank, IsSpace;
    Spaces();
    NotBehind(u, p + |e|, |u| - 1);
  }

  lemma WrapsStart(u: string, v: string, p: nat, e: string, p': nat, e': string)
    requires Wraps(u, p, e) && Wraps(u + v, p', e') && e != "" && e[0] == '{' && e' != "" && e'[0] == '{'
    ensures p == p'
  {
    hide Blank, IsSpace;
    Spaces();
    var w := u + v;
    assert w[..p] == u[..p] && w[p] == u[p] == e[0] && w[p'] == e'[0];
    NotBefore(w, p, p');
    NotBefore(w, p', p);
  }

  lemma WrapsRest(u: string, v: string, p: nat, e: string, e': string)
    requires Wraps(u, p, e) && p + |e| == |u| && Wraps(u + v, p, e') && |e| >= 2 && |e'| >= 2
    requires e[|e| - 1] == '}' && e'[|e'| - 1] == '}'
    requires (forall i :: 0 <= i < |e| - 1 ==> e[i] != '}') && (forall i :: 0 <= i < |e'| - 1 ==> e'[i] != '}')
    ensures Blank(v)
  {
    hide Blank, IsSpace;
    assert (u + v)[p..p + |e|] == e;
    SameEnd(u + v, p, e, e');
    assert (u + v)[|u|..] == v;
  }

  /** Of two texts that start together and have a brace only at their end, neither is longer. */
  lemma SameEnd(w: string, p: nat, e: string, e': string)
    requires |e| >= 2 && |e'| >= 2 && p + |e| <= |w| && p + |e'| <= |w| && w[p..p + |e|] == e && w[p..p + |e'|] == e'
    requires e[|e| - 1] == '}' && e'[|e'| - 1] == '}'
    requires (forall i :: 0 <= i < |e| - 1 ==> e[i] != '}') && (forall i :: 0 <= i < |e'| - 1 ==> e'[i] != '}')
    ensures e == e'
  {
    assert w[p + |e| - 1] == '}' && w[p + |e'| - 1] == '}';
    var i := if |e| <= |e'| then |e| - 1 else |e'| - 1;
    assert e[i] == w[p + i] == e'[i];
  }

  // ---------------------------------------------------------------- what a loader makes of a stream

  /** A complete line is read as the reply that was sent. */
  lemma LineDecodes(loads: Loader, r: Reply)
    ensures loads(Line(r)) == Loaded(r)
  {
    hide *;
    var e := Encode(r);
    LineOf(r);
    Blanks();
    WrapsBy("", e, "\n");
    assert "" + e + "\n" == e + "\n";
    ReplyAt(Line(r), 0, r);
    ReplyLoads(loads, Line(r), r);
  }

  lemma LineOf(r: Reply)
    ensures Line(r) == Encode(r) + "\n"
  {
    hide Encode;
  }

  /** Whatever part of a stream is cut out, however the cuts fall: if it ends a line and is accepted
      at all, it is read as a reply that was really sent. */
  lemma SegmentWasSent(loads: Loader, sent: seq<Reply>, a: nat, b: nat)
    requires a <= b <= |Text(sent)| && EndsLine(Text(sent)[a..b])
    ensures var r := loads(Text(sent)[a..b]); r.ValueError? || (r.Loaded? && r.reply in sent)
  {
    hide *;
    EndsBreak(Text(sent)[a..b]);
    Blanks();
    SegmentAfterBlank(loads, sent, a, b, "");
    assert "" + Text(sent)[a..b] == Text(sent)[a..b];
  }

  lemma {:induction false} SegmentAfterBlank(loads: Loader, sent: seq<Reply>, a: nat, b: nat, u: string)
    requires a < b <= |Text(sent)| && Text(sent)[b - 1] == '\n' && Blank(u)
    ensures var r := loads(u + Text(sent)[a..b]); r.ValueError? || (r.Loaded? && r.reply in sent)
    decreases |sent|
  {
    hide *;
    TextSplits(sent);
    var n := |Line(sent[0])|;
    if a >= n {
      assert Text(sent)[a..b] == Text(sent[1..])[a - n..b - n];
      SegmentAfterBlank(loads, sent[1..], a - n, b - n, u);
    } else if a == 0 {
      FromLineStart(loads, sent, b, u);
    } else if a < n - 1 {
      FromInsideLine(loads, sent, a, b, u);
    } else if b == n {
      OnlyBreak(loads, u);
      assert Text(sent)[a..b] == "\n";
    } else {
      OnlyBreak(loads, u);
      assert u + Text(sent)[a..b] == (u + "\n") + Text(sent[1..])[0..b - n];
      BlankAppend(u, "\n");
      SegmentAfterBlank(loads, sent[1..], 0, b - n, u + "\n");
    }
  }

  lemma TextSplits(sent: seq<Reply>)
    requires |Text(sent)| > 0
    ensures sent != [] && Text(sent) == Line(sent[0]) + Text(sent[1..])
    ensures Line(sent[0]) == Encode(sent[0]) + "\n"
    ensures var n := |Line(sent[0])|; Text(sent)[n - 1] == '\n' && forall i :: 0 <= i < n - 1 ==> Text(sent)[i] != '\n'
  {
    EncodeShape(sent[0]);
    hide Encode;
  }

  lemma EndsBreak(s: string)
    requires EndsLine(s)
    ensures s != "" && s[|s| - 1] == '\n'
  {
  }

  lemma OnlyBreak(loads: Loader, u: string)
    requires Blank(u)
    ensures Blank("\n") && loads(u + "\n").ValueError?
  {
    hide *;
    Blanks();
    BlankAppend(u, "\n");
    BlankFails(loads, u + "\n");
  }

  /** A segment from the start of a line: if accepted, it is that line alone. */
  lemma FromLineStart(loads: Loader, sent: seq<Reply>, b: nat, u: string)
    requires Blank(u) && sent != [] && |Line(sent[0])| <= b <= |Text(sent)|
    ensures var r := loads(u + Text(sent)[0..b]); r.ValueError? || r == Loaded(sent[0])
  {
    hide *;
    var r, e := sent[0], Encode(sent[0]);
    LineOf(r);
    TextSplits(sent);
    EncodeShape(r);
    var v := Text(sent)[|e|..b];
    assert u + Text(sent)[0..b] == (u + e) + v;
    Blanks();
    WrapsBy(u, e, "");
    assert u + e + "" == u + e;
    ReplyAt(u + e, |u|, r);
    ReplyLoads(loads, u + e, r);
    if !loads((u + e) + v).ValueError? {
      ExtendsBy(loads, u + e, v);
      NothingFollows(loads, u + e, v);
      WrapsBy(u, e, v);
      ReplyAt((u + e) + v, |u|, r);
      ReplyLoads(loads, (u + e) + v, r);
    }
  }

  lemma ExtendsBy(f: string -> LoadResult, u: string, v: string)
    requires u != "" && u[|u| - 1] == '}' && !f(u).ValueError? && !f(u + v).ValueError?
    ensures Extends(f, u, v)
  {
  }

  /** A segment from inside a line closes with a brace but does not open with one. */
  lemma FromInsideLine(loads: Loader, sent: seq<Reply>, a: nat, b: nat, u: string)
    requires Blank(u) && sent != [] && 0 < a < |Encode(sent[0])| < b <= |Text(sent)| && Text(sent)[b - 1] == '\n'
    ensures loads(u + Text(sent)[a..b]).ValueError?
  {
    hide *;
    var t, e := Text(sent), Encode(sent[0]);
    EncodeEnds(sent[0]);
    TextSplits(sent);
    BreakFollowsBrace(sent, b);
    var s := u + t[a..b];
    ClosesAt(s);
    if !loads(s).ValueError? {
      CloserOpens(loads, s);
      var i := OpensAt(s);
      var close := |u| + |e| - 1 - a;
      assert s[close] == e[|e| - 1] == '}';
      Spaces();
      NotBefore(s, i, close);
      NotInside(u, s, i);
      BraceStarts(sent[0], a + i - |u|);
    }
  }

  lemma EncodeEnds(r: Reply)
    ensures Encode(r) != "" && Encode(r)[|Encode(r)| - 1] == '}'
  {
    EncodeShape(r);
    hide *;
  }

  lemma BraceStarts(r: Reply, i: nat)
    requires i < |Encode(r)| && Encode(r)[i] == '{'
    ensures i == 0
  {
    EncodeShape(r);
    hide *;
  }

  lemma NotInside(u: string, s: string, i: nat)
    requires Blank(u) && |u| <= |s| && s[..|u|] == u && i < |s| && s[i] == '{'
    ensures i >= |u|
  {
    hide *;
    Spaces();
    NotBefore(s, |u|, i);
  }

  lemma ClosesAt(s: string)
    requires |s| >= 2 && s[|s| - 1] == '\n' && s[|s| - 2] == '}'
    ensures ClosesLast(s)
  {
    assert s[|s| - 2 + 1..] == "\n";
  }

  lemma OpensAt(s: string) returns (i: nat)
    requires OpensFirst(s)
    ensures i < |s| && s[i] == '{' && Blank(s[..i])
  {
    hide Blank;
    i :| 0 <= i < |s| && s[i] == '{' && Blank(s[..i]);
  }
}
