/** The link extractor `isLink` of src/services/botEvents.ts: the first match of
    the regular expression `/(https?:\/\/[^\s]+)/i` in a message.

    The expression's meaning is stated declaratively (MatchesAt, FirstMatch) and
    the extractor is computed by a left-to-right scan (FindFrom, RunEnd); the
    lemma IsLinkMatchesRegex ties the two together. */
module UrlMatch {
  import opened Wrappers
  import Text

  /** The characters of JavaScript's `\s` class: the WhiteSpace and
      LineTerminator code points of ECMA-262. */
  predicate IsWhitespace(c: char) {
    var n := c as int;
    n == 0x09 || n == 0x0A || n == 0x0B || n == 0x0C || n == 0x0D || n == 0x20
    || n == 0xA0 || n == 0x1680 || (0x2000 <= n <= 0x200A) || n == 0x2028 || n == 0x2029
    || n == 0x202F || n == 0x205F || n == 0x3000 || n == 0xFEFF
  }

  const Http := "http://"
  const Https := "https://"

  /** `s` holds the lower-case pattern `p` at position `i`, letters compared
      ASCII-case-insensitively (the `i` flag without the `u` flag never folds a
      non-ASCII character onto an ASCII one). */
  predicate SchemeAt(s: string, i: nat, p: string) {
    i + |p| <= |s| && forall k :: 0 <= k < |p| ==> Text.LowerAscii(s[i + k]) == p[k]
  }

  /** `s[a..j]` is a non-empty run of non-whitespace characters: `[^\s]+`. */
  predicate NonSpaceRun(s: string, a: nat, j: nat) {
    a < j <= |s| && forall k :: a <= k < j ==> !IsWhitespace(s[k])
  }

  /** `s[i..j]` belongs to the language of `https?:\/\/[^\s]+` under the `i` flag. */
  ghost predicate MatchesAt(s: string, i: nat, j: nat) {
    (SchemeAt(s, i, Https) && NonSpaceRun(s, i + |Https|, j))
    || (SchemeAt(s, i, Http) && NonSpaceRun(s, i + |Http|, j))
  }

  /** `s[i..j]` is the match `String.prototype.match` reports: the leftmost
      start at which the expression matches, and at that start the longest
      end, since the final `[^\s]+` is greedy and nothing follows it. */
  ghost predicate FirstMatch(s: string, i: nat, j: nat) {
    i < j <= |s|
    && MatchesAt(s, i, j)
    && (forall i': nat, j': nat :: i' < i ==> !MatchesAt(s, i', j'))
    && (forall j': nat :: j < j' ==> !MatchesAt(s, i, j'))
  }

  /** Length of the scheme found at `i`: 8 for `https://`, 7 for `http://`, 0 for none. */
  function SchemeLength(s: string, i: nat): nat {
    if SchemeAt(s, i, Https) then |Https| else if SchemeAt(s, i, Http) then |Http| else 0
  }

  /** A match starts at `i`: a scheme followed by at least one non-whitespace character. */
  predicate StartsMatch(s: string, i: nat) {
    var n := SchemeLength(s, i);
    n > 0 && i + n < |s| && !IsWhitespace(s[i + n])
  }

  /** End of the maximal run of non-whitespace characters starting at `j`. */
  function RunEnd(s: string, j: nat): (e: nat)
    requires j <= |s|
    ensures j <= e <= |s|
    ensures forall k :: j <= k < e ==> !IsWhitespace(s[k])
    ensures e == |s| || IsWhitespace(s[e])
    decreases |s| - j
  {
    if j == |s| || IsWhitespace(s[j]) then j else RunEnd(s, j + 1)
  }

  /** The leftmost position at or after `i` where a match starts. */
  function FindFrom(s: string, i: nat): (r: Option<nat>)
    requires i <= |s|
    ensures r.Some? ==> i <= r.value < |s| && StartsMatch(s, r.value)
    ensures forall k :: i <= k < |s| && (r.None? || k < r.value) ==> !StartsMatch(s, k)
    decreases |s| - i
  {
    if i == |s| then None
    else if StartsMatch(s, i) then Some(i)
    else FindFrom(s, i + 1)
  }

  /** `isLink(content)`: the first URL in the message, or None for `null`. */
  function IsLink(content: string): (r: Option<string>)
    ensures r.Some? ==> |Http| < |r.value| <= |content|
  {
    match FindFrom(content, 0)
    case None => None
    case Some(i) => Some(content[i..RunEnd(content, i + SchemeLength(content, i))])
  }

  /** The two schemes cannot both be present at one position: the fifth
      character would have to be both `s` and `:`. */
  lemma SchemesExclusive(s: string, i: nat)
    ensures !(SchemeAt(s, i, Https) && SchemeAt(s, i, Http))
  {
    if SchemeAt(s, i, Https) {
      assert Text.LowerAscii(s[i + 4]) == Https[4] == 's';
      assert Text.LowerAscii(s[i + 4]) != Http[4];
    }
  }

  /** The regular expression matches `s[i..j]` exactly when a match starts at
      `i` and `j` lies after the scheme and no further than the end of the run. */
  lemma MatchesAtIff(s: string, i: nat, j: nat)
    ensures MatchesAt(s, i, j) <==>
      StartsMatch(s, i) && i + SchemeLength(s, i) < j <= RunEnd(s, i + SchemeLength(s, i))
  {
    SchemesExclusive(s, i);
    var n := SchemeLength(s, i);
    if MatchesAt(s, i, j) {
      assert n > 0 && NonSpaceRun(s, i + n, j);
    }
  }

  /** The extractor computes exactly the match the regular expression defines:
      None when the expression matches nowhere, and otherwise the text of the
      leftmost-longest match. */
  lemma IsLinkMatchesRegex(s: string)
    ensures IsLink(s).None? <==> forall i: nat, j: nat :: !MatchesAt(s, i, j)
    ensures forall u :: IsLink(s) == Some(u) <==> exists i: nat, j: nat :: FirstMatch(s, i, j) && u == s[i..j]
  {
    match FindFrom(s, 0)
    case None =>
      NoMatchWhereScanFindsNone(s);
    case Some(i) =>
      var e := RunEnd(s, i + SchemeLength(s, i));
      ScanFindsFirstMatch(s, i);
      forall u ensures IsLink(s) == Some(u) <==> exists i: nat, j: nat :: FirstMatch(s, i, j) && u == s[i..j] {
        if exists i': nat, j': nat :: FirstMatch(s, i', j') && u == s[i'..j'] {
          var i': nat, j': nat :| FirstMatch(s, i', j') && u == s[i'..j'];
          FirstMatchUnique(s, i, e, i', j');
        }
      }
  }

  lemma NoMatchWhereScanFindsNone(s: string)
    requires FindFrom(s, 0).None?
    ensures forall i: nat, j: nat :: !MatchesAt(s, i, j)
  {
    forall i: nat, j: nat ensures !MatchesAt(s, i, j) {
      MatchesAtIff(s, i, j);
    }
  }

  lemma ScanFindsFirstMatch(s: string, i: nat)
    requires FindFrom(s, 0) == Some(i)
    ensures FirstMatch(s, i, RunEnd(s, i + SchemeLength(s, i)))
  {
    var e := RunEnd(s, i + SchemeLength(s, i));
    MatchesAtIff(s, i, e);
    forall i': nat, j': nat | i' < i ensures !MatchesAt(s, i', j') {
      MatchesAtIff(s, i', j');
    }
    forall j': nat | e < j' ensures !MatchesAt(s, i, j') {
      MatchesAtIff(s, i, j');
    }
  }

  /** At most one match is the first one. */
  lemma FirstMatchUnique(s: string, i: nat, j: nat, i': nat, j': nat)
    requires FirstMatch(s, i, j) && FirstMatch(s, i', j')
    ensures i == i' && j == j'
  {
  }

  /** Whether a match starts at `k` depends only on the nine characters from `k`. */
  lemma StartsMatchFrame(a: string, b: string, k: nat)
    requires k + |Https| + 1 <= |a|
    ensures SchemeLength(a + b, k) == SchemeLength(a, k)
    ensures StartsMatch(a + b, k) <==> StartsMatch(a, k)
  {
    var s := a + b;
    assert forall j :: k <= j < k + |Https| + 1 ==> s[j] == a[j];
  }

  /** `u` occurs in `s` at `i` and is followed by the end of `s` or by whitespace. */
  predicate LinkAt(s: string, u: string, i: nat) {
    i + |u| <= |s| && s[i..i + |u|] == u && (i + |u| == |s| || IsWhitespace(s[i + |u|]))
  }

  /** A match cut out of its message is a match of the whole cut-out text,
      and the first one there. */
  lemma MatchSlice(s: string, i: nat, j: nat)
    requires i <= j <= |s| && MatchesAt(s, i, j)
    ensures FirstMatch(s[i..j], 0, j - i)
  {
    var u := s[i..j];
    assert forall k :: 0 <= k < |u| ==> u[k] == s[i + k];
    if SchemeAt(s, i, Https) {
      assert SchemeAt(u, 0, Https);
    } else {
      assert SchemeAt(u, 0, Http);
    }
  }

  /** The result is itself a message whose first link is the whole message. */
  lemma IsLinkIdempotent(s: string, u: string)
    requires IsLink(s) == Some(u)
    ensures IsLink(u) == Some(u)
  {
    assert exists i: nat, j: nat :: FirstMatch(s, i, j) && u == s[i..j] by {
      IsLinkMatchesRegex(s);
    }
    var i: nat, j: nat :| FirstMatch(s, i, j) && u == s[i..j];
    MatchSlice(s, i, j);
    assert u[0..|u|] == u;
    IsLinkMatchesRegex(u);
  }

  /** The scan for a match start gives the same answer on a longer message
      when the start it found leaves room for a whole scheme and one more
      character before the original end. */
  lemma {:induction false} FindFromFrame(a: string, b: string, k: nat, i: nat)
    requires k <= i && i + |Https| + 1 <= |a| && FindFrom(a, k) == Some(i)
    ensures FindFrom(a + b, k) == Some(i)
    decreases i - k
  {
    StartsMatchFrame(a, b, k);
    if k < i {
      FindFromFrame(a, b, k + 1, i);
    }
  }

  /** A run that stops at a whitespace character inside `a` stops there in `a + b` too. */
  lemma {:induction false} RunEndFrame(a: string, b: string, j: nat)
    requires j <= |a| && RunEnd(a, j) < |a|
    ensures RunEnd(a + b, j) == RunEnd(a, j)
    decreases |a| - j
  {
    var s := a + b;
    assert s[j] == a[j];
    if !IsWhitespace(a[j]) {
      RunEndFrame(a, b, j + 1);
    }
  }

  /** A non-null result is a piece of the message that starts with the scheme,
      holds no whitespace, and runs to the end of the message or up to a
      whitespace character. */
  lemma IsLinkShape(s: string, u: string)
    requires IsLink(s) == Some(u)
    ensures exists i: nat :: LinkAt(s, u, i)
    ensures SchemeAt(u, 0, Https) || SchemeAt(u, 0, Http)
    ensures |u| > SchemeLength(u, 0) > 0
    ensures forall k :: 0 <= k < |u| ==> !IsWhitespace(u[k])
  {
    var i := FindFrom(s, 0).value;
    assert LinkAt(s, u, i) by {
      assert s[i..i + |u|] == u;
    }
    IsLinkIdempotent(s, u);
    WholeLinkShape(u);
  }

  /** A string that is its own first link starts with a scheme, has more
      than the scheme, and holds no whitespace. */
  lemma WholeLinkShape(u: string)
    requires IsLink(u) == Some(u)
    ensures SchemeAt(u, 0, Https) || SchemeAt(u, 0, Http)
    ensures |u| > SchemeLength(u, 0) > 0
    ensures forall k :: 0 <= k < |u| ==> !IsWhitespace(u[k])
  {
    var i' := FindFrom(u, 0).value;
    var n := SchemeLength(u, i');
    assert |u[i'..RunEnd(u, i' + n)]| == |u|;
    assert i' == 0 && RunEnd(u, n) == |u|;
    forall k | 0 <= k < |u| ensures !IsWhitespace(u[k]) {
      if k < n {
        var p := if n == |Https| then Https else Http;
        assert Text.LowerAscii(u[0 + k]) == p[k];
      }
    }
  }

  /** A run stops no later than the first whitespace character after its start. */
  lemma {:induction false} RunEndBeforeWhitespace(s: string, j: nat, w: nat)
    requires j <= w < |s| && IsWhitespace(s[w])
    ensures RunEnd(s, j) <= w
    decreases w - j
  {
    if j < w && !IsWhitespace(s[j]) {
      RunEndBeforeWhitespace(s, j + 1, w);
    }
  }

  /** Once a link has been found and followed by whitespace, nothing written
      after it changes the result: later URLs in the same message are never
      returned. */
  lemma LaterLinkIgnored(a: string, b: string)
    requires IsLink(a).Some?
    requires |a| > 0 && IsWhitespace(a[|a| - 1])
    ensures IsLink(a + b) == IsLink(a)
  {
    var i := FindFrom(a, 0).value;
    var n := SchemeLength(a, i);
    LinkRoom(a, i);
    var e := RunEnd(a, i + n);
    var s := a + b;
    assert FindFrom(s, 0) == Some(i) by {
      FindFromFrame(a, b, 0, i);
    }
    assert SchemeLength(s, i) == n by {
      StartsMatchFrame(a, b, i);
    }
    assert RunEnd(s, i + n) == e by {
      RunEndFrame(a, b, i + n);
    }
    IsLinkFound(s, i);
    IsLinkFound(a, i);
    SliceOfPrefix(a, b, i, e);
  }

  /** The result read off a found match start. */
  lemma IsLinkFound(s: string, i: nat)
    requires FindFrom(s, 0) == Some(i)
    ensures IsLink(s) == Some(s[i..RunEnd(s, i + SchemeLength(s, i))])
  {
  }

  lemma SliceOfPrefix(a: string, b: string, i: nat, e: nat)
    requires i <= e <= |a|
    ensures (a + b)[i..e] == a[i..e]
  {
  }

  /** A link found in text that ends in whitespace stops before that end,
      which leaves room for a whole `https://` and one more character. */
  lemma LinkRoom(a: string, i: nat)
    requires StartsMatch(a, i)
    requires IsWhitespace(a[|a| - 1])
    ensures i + |Https| + 1 <= |a| && RunEnd(a, i + SchemeLength(a, i)) < |a|
  {
    var n := SchemeLength(a, i);
    assert i + n < |a| - 1;
    RunEndBeforeWhitespace(a, i + n, |a| - 1);
  }

  /** No match starts at a character that is not an `h`. */
  lemma NoStartWithoutH(s: string, k: nat)
    requires k < |s| && Text.LowerAscii(s[k]) != 'h'
    ensures !StartsMatch(s, k)
  {
    assert Text.LowerAscii(s[k + 0]) != Https[0];
    assert Text.LowerAscii(s[k + 0]) != Http[0];
  }

  /** A scheme followed by whitespace is not a link. */
  lemma SchemeAloneIsNoLink()
    ensures IsLink("http:// x") == None
  {
    var s := "http:// x";
    SchemesExclusive(s, 0);
    assert Text.LowerAscii(s[4]) != Https[4];
    assert IsWhitespace(s[7]);
    forall k: nat | 1 <= k < |s| ensures !StartsMatch(s, k) {
      NoStartWithoutH(s, k);
    }
  }

  /** A match found in a prefix is still found, with the same scheme, once
      more text is appended. */
  lemma StartsMatchExtend(a: string, b: string, k: nat)
    requires StartsMatch(a, k)
    ensures StartsMatch(a + b, k) && SchemeLength(a + b, k) == SchemeLength(a, k)
  {
    var s := a + b;
    var n := SchemeLength(a, k);
    assert forall j :: k <= j <= k + n ==> s[j] == a[j];
    SchemesExclusive(s, k);
    if n == |Https| {
      assert SchemeAt(s, k, Https);
    } else {
      assert SchemeAt(s, k, Http);
    }
  }

  /** Prepending text shifts every match start by its length. */
  lemma StartsMatchShift(t: string, r: string, k: nat)
    ensures SchemeLength(t + r, |t| + k) == SchemeLength(r, k)
    ensures StartsMatch(t + r, |t| + k) <==> StartsMatch(r, k)
  {
    var s := t + r;
    assert forall j :: 0 <= j < |r| ==> s[|t| + j] == r[j];
    assert SchemeAt(s, |t| + k, Https) <==> SchemeAt(r, k, Https);
    assert SchemeAt(s, |t| + k, Http) <==> SchemeAt(r, k, Http);
  }

  /** Text with no `p` in it, in either case, has no position where a match
      starts: every scheme holds a `p`. */
  lemma NoStartWithoutP(t: string)
    requires WithoutP(t)
    ensures forall k: nat :: k < |t| ==> !StartsMatch(t, k)
  {
    forall k: nat | k < |t| ensures !StartsMatch(t, k) {
      if k + 3 < |t| {
        assert Text.LowerAscii(t[k + 3]) != Https[3];
        assert Text.LowerAscii(t[k + 3]) != Http[3];
      }
    }
  }

  /** Text with no `p` in it, in either case, holds no link. */
  lemma NoLinkWithoutP(s: string)
    requires WithoutP(s)
    ensures IsLink(s) == None
  {
    NoStartWithoutP(s);
    assert FindFrom(s, 0).None?;
  }

  /** A character the `i` flag matches against a scheme character is not whitespace. */
  lemma SchemeCharNotSpace(c: char, p: string, j: nat)
    requires (p == Https || p == Http) && j < |p| && Text.LowerAscii(c) == p[j]
    ensures !IsWhitespace(c)
  {
  }

  /** The scheme of a match and the character after it hold no whitespace. */
  lemma MatchStartVisible(s: string, k: nat)
    requires StartsMatch(s, k)
    ensures forall j :: k <= j <= k + SchemeLength(s, k) ==> !IsWhitespace(s[j])
  {
    var p := if SchemeAt(s, k, Https) then Https else Http;
    forall j | k <= j < k + SchemeLength(s, k) ensures !IsWhitespace(s[j]) {
      SchemeCharNotSpace(s[j], p, j - k);
    }
  }

  /** A match starting in leading text that ends in whitespace lies wholly
      inside that text, so it is a match of the text alone. */
  lemma StartStaysInside(t: string, r: string, k: nat)
    requires k < |t| && IsWhitespace(t[|t| - 1])
    ensures StartsMatch(t + r, k) ==> StartsMatch(t, k)
  {
    var s := t + r;
    if StartsMatch(s, k) {
      var n := SchemeLength(s, k);
      MatchStartVisible(s, k);
      assert s[|t| - 1] == t[|t| - 1];
      assert k + n < |t|;
      assert forall j :: k <= j <= k + n ==> t[j] == s[j];
      SchemesExclusive(s, k);
      if n == |Https| {
        assert SchemeAt(t, k, Https);
      } else {
        assert SchemeAt(t, k, Http);
        assert !SchemeAt(t, k, Https) by {
          if k + |Https| <= |t| {
            assert forall j :: k <= j < k + |Https| ==> t[j] == s[j];
          }
        }
      }
    }
  }

  /** No match starts in link-free leading text that ends in whitespace,
      whatever follows it. */
  lemma NoStartInLinkFreeText(t: string, r: string)
    requires forall k: nat :: k < |t| ==> !StartsMatch(t, k)
    requires |t| > 0 && IsWhitespace(t[|t| - 1])
    ensures forall k: nat :: k < |t| ==> !StartsMatch(t + r, k)
  {
    forall k: nat | k < |t| ensures !StartsMatch(t + r, k) {
      StartStaysInside(t, r, k);
    }
  }

  /** A link is found behind leading text in which no match starts, when that
      text ends in whitespace and the link runs up to the end of the message
      or to a whitespace character. */
  lemma LinkAfterPlainText(t: string, u: string, w: string)
    requires forall k: nat :: k < |t| ==> !StartsMatch(t, k)
    requires |t| > 0 && IsWhitespace(t[|t| - 1])
    requires StartsMatch(u, 0)
    requires forall k :: 0 <= k < |u| ==> !IsWhitespace(u[k])
    requires w == [] || IsWhitespace(w[0])
    ensures IsLink(t + u + w) == Some(u)
  {
    var s := t + (u + w);
    assert s == t + u + w;
    StartsMatchExtend(u, w, 0);
    FindAfterPlainText(t, u + w);
    StartsMatchShift(t, u + w, 0);
    var n := SchemeLength(u, 0);
    assert forall k :: 0 <= k < |u| ==> s[|t| + k] == u[k];
    RunEndIs(s, |t| + n, |t| + |u|);
    assert s[|t|..|t| + |u|] == u;
  }

  /** The scan finds a match right behind leading text that holds none. */
  lemma FindAfterPlainText(t: string, r: string)
    requires forall k: nat :: k < |t| ==> !StartsMatch(t, k)
    requires |t| > 0 && IsWhitespace(t[|t| - 1])
    requires StartsMatch(r, 0)
    ensures FindFrom(t + r, 0) == Some(|t|)
  {
    NoStartInLinkFreeText(t, r);
    StartsMatchShift(t, r, 0);
  }

  /** A run ends exactly at the first whitespace character after its start,
      or at the end of the text. */
  lemma RunEndIs(s: string, j: nat, e: nat)
    requires j <= e <= |s|
    requires forall k :: j <= k < e ==> !IsWhitespace(s[k])
    requires e == |s| || IsWhitespace(s[e])
    ensures RunEnd(s, j) == e
  {
  }

  /** No character of `t` is a `p` in either case. */
  predicate WithoutP(t: string) {
    forall k :: 0 <= k < |t| ==> Text.LowerAscii(t[k]) != 'p'
  }

  /** Every character of `u` is printable ASCII other than the space. */
  predicate Visible(u: string) {
    forall k :: 0 <= k < |u| ==> '!' <= u[k] <= '~'
  }

  /** The three parts of a sentence holding one link: leading words without
      `p` ending in a space, a link of printable characters, and trailing
      words after a space or nothing. */
  lemma PlainLinkParts(t: string, u: string, w: string)
    requires WithoutP(t) && |t| > 0 && t[|t| - 1] == ' '
    requires StartsMatch(u, 0) && Visible(u)
    requires w == [] || w[0] == ' '
    ensures IsLink(t + u + w) == Some(u)
  {
    NoStartWithoutP(t);
    LinkAfterPlainText(t, u, w);
  }

  /** The scheme is matched without regard to case and kept as written. */
  lemma UpperCaseSchemeIsLink()
    ensures IsLink("see HTTPS://Example.org/A b") == Some("HTTPS://Example.org/A")
  {
    var t, u, w := "see ", "HTTPS://Example.org/A", " b";
    assert t + u + w == "see HTTPS://Example.org/A b";
    UpperCaseSentence(t, u, w);
  }

  lemma UpperCaseSentence(t: string, u: string, w: string)
    requires t == "see " && u == "HTTPS://Example.org/A" && w == " b"
    ensures IsLink(t + u + w) == Some(u)
  {
    assert WithoutP(t);
    UpperCaseLinkParts(u);
    PlainLinkParts(t, u, w);
  }

  lemma UpperCaseLinkParts(u: string)
    requires u == "HTTPS://Example.org/A"
    ensures StartsMatch(u, 0) && Visible(u)
  {
    assert Visible(u);
    assert SchemeAt(u, 0, Https);
    assert u[8] == 'E';
  }

  /** A sentence with an Instagram reel link in the middle: the link is
      extracted, without the words around it. */
  lemma ScenarioInstagram(t: string, u: string, w: string)
    requires t == "check this out " && u == "https://instagram.com/reel/abc123" && w == " nice"
    ensures IsLink(t + u + w) == Some(u)
  {
    assert WithoutP(t);
    InstagramLinkParts(u);
    PlainLinkParts(t, u, w);
  }

  lemma InstagramLinkParts(u: string)
    requires u == "https://instagram.com/reel/abc123"
    ensures StartsMatch(u, 0) && Visible(u)
  {
    InstagramVisible(u);
    assert SchemeAt(u, 0, Https);
    assert u[8] == 'i';
  }

  lemma InstagramVisible(u: string)
    requires u == "https://instagram.com/reel/abc123"
    ensures Visible(u)
  {
  }

  /** A sentence ending in an example.org link: the link runs to the end of
      the message. */
  lemma ScenarioExampleOrg()
    ensures IsLink("look at http://example.org/x") == Some("http://example.org/x")
  {
    var t, u := "look at ", "http://example.org/x";
    assert t + u == "look at http://example.org/x";
    ExampleOrgSentence(t, u);
  }

  lemma ExampleOrgSentence(t: string, u: string)
    requires t == "look at " && u == "http://example.org/x"
    ensures IsLink(t + u) == Some(u)
  {
    assert WithoutP(t);
    ExampleOrgLinkParts(u);
    PlainLinkParts(t, u, "");
    assert t + u + "" == t + u;
  }

  lemma ExampleOrgLinkParts(u: string)
    requires u == "http://example.org/x"
    ensures StartsMatch(u, 0) && Visible(u)
  {
    assert Visible(u);
    assert SchemeAt(u, 0, Http);
    assert u[7] == 'e';
  }
}
