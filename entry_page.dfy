/** `get_selection_params`: the one-time token from the page's `token` input, and `subId` and
    `buildingId` from the first match of `KEY\s*=\s*'([^']+)';` in the page text. */
module EntryPage {
  import opened Wrappers
  import opened Replies
  import opened Text

  const SubIdKey := "subId"
  const BuildingIdKey := "buildingId"

  /** The selection page: the `value` attribute of the `<input id="token" name="token">`
      element (None when the element or the attribute is missing) and the raw page text. */
  datatype Page = Page(token: Option<string>, text: string)

  datatype Context = Context(token: string, subId: string, buildingId: string)

  datatype Error = TransportFailed | MissingToken | MissingRoutingIds

  /** The text the regular expression matches: the key, spaces, `=`, spaces, a quoted value and `;`. */
  function Assignment(key: string, w1: string, w2: string, v: string): string {
    key + (w1 + ("=" + (w2 + ("'" + (v + "';")))))
  }

  /** The regular expression matches at position `i` of `s` with capture `v`. */
  ghost predicate Occurs(s: string, key: string, i: nat, v: string) {
    i <= |s| && v != [] && '\'' !in v
    && exists w1, w2 :: AllSpace(w1) && AllSpace(w2) && Assignment(key, w1, w2, v) <= s[i..]
  }

  /** The longest prefix of `t` without a `'`. */
  function TakeNonQuote(t: string): (r: string)
    ensures r <= t && '\'' !in r
    ensures |r| == |t| || t[|r|] == '\''
  {
    if t != [] && t[0] != '\'' then [t[0]] + TakeNonQuote(t[1..]) else []
  }

  /** What follows the opening quote, `([^']+)';`: `[^']+` can only stop at the next quote. */
  function Quoted(t: string): Option<string> {
    var v := TakeNonQuote(t);
    if v != [] && "';" <= t[|v|..] then Some(v) else None
  }

  /** What follows `=`, `\s*'([^']+)';`: `\s*` can only stop at the end of the white space. */
  function AfterEquals(t: string): Option<string> {
    var u := TrimStart(t);
    if u != [] && u[0] == '\'' then Quoted(u[1..]) else None
  }

  /** What follows the key, `\s*=\s*'([^']+)';`. */
  function AfterKey(t: string): Option<string> {
    var u := TrimStart(t);
    if u != [] && u[0] == '=' then AfterEquals(u[1..]) else None
  }

  /** The match starting at position `i`, read without backtracking. */
  function MatchAt(s: string, key: string, i: nat): Option<string> {
    if i <= |s| && key <= s[i..] then AfterKey(s[i..][|key|..]) else None
  }

  /** `t` is `w` followed by something that starts with `y`. */
  lemma AppendPrefix(w: string, y: string, u: string, t: string)
    requires t == w + u && y <= u
    ensures w + y <= t
  {
    assert forall k :: |w| <= k < |w| + |y| ==> (w + y)[k] == y[k - |w|] == u[k - |w|] == t[k];
  }

  lemma AppendPrefixInv(w: string, y: string, t: string)
    requires w + y <= t
    ensures t == w + t[|w|..] && y <= t[|w|..]
  {
    assert t[..|w|] == (w + y)[..|w|] == w;
    assert t == t[..|w|] + t[|w|..];
    assert forall k :: 0 <= k < |y| ==> y[k] == (w + y)[|w| + k];
  }

  lemma PrefixSplits(w: string, t: string)
    ensures w <= t <==> |w| <= |t| && t == w + t[|w|..]
  {
    if w <= t {
      assert t == t[..|w|] + t[|w|..];
    }
  }

  lemma ConsPrefix(c: char, x: string, u: string)
    requires u != [] && u[0] == c && x <= u[1..]
    ensures [c] + x <= u
  {
    assert forall k :: 1 <= k < 1 + |x| ==> ([c] + x)[k] == x[k - 1] == u[1..][k - 1];
  }

  lemma ConsPrefixInv(c: char, x: string, u: string)
    requires [c] + x <= u
    ensures u != [] && u[0] == c && x <= u[1..]
  {
    assert ([c] + x)[0] == c;
    assert forall k :: 0 <= k < |x| ==> x[k] == ([c] + x)[k + 1];
  }

  /** White space in front of a text that does not start with white space is what
      `TrimStart` removes. */
  lemma {:induction false} TrimStartLands(w: string, u: string)
    requires AllSpace(w) && (u == [] || !IsSpace(u[0]))
    ensures TrimStart(w + u) == u
  {
    if w == [] {
      assert w + u == u;
    } else {
      assert (w + u)[1..] == w[1..] + u;
      TrimStartLands(w[1..], u);
    }
  }

  /** Splits `t` into the white space `TrimStart` removes and the rest. */
  lemma TrimStartSplits(t: string)
    ensures AllSpace(t[..|t| - |TrimStart(t)|]) && t == t[..|t| - |TrimStart(t)|] + TrimStart(t)
  {
    SplitOffSpaces(t, TrimStart(t));
  }

  lemma SplitOffSpaces(t: string, u: string)
    requires |u| <= |t| && u == t[|t| - |u|..]
    requires forall k :: 0 <= k < |t| - |u| ==> IsSpace(t[k])
    ensures AllSpace(t[..|t| - |u|]) && t == t[..|t| - |u|] + u
  {
    var n := |t| - |u|;
    forall k | 0 <= k < n ensures IsSpace(t[..n][k]) {
      assert t[..n][k] == t[k];
    }
  }

  lemma TakeNonQuoteLands(v: string, x: string)
    requires '\'' !in v
    ensures TakeNonQuote(v + ("'" + x)) == v
  {
    if v != [] {
      assert (v + ("'" + x))[1..] == v[1..] + ("'" + x);
      TakeNonQuoteLands(v[1..], x);
    }
  }

  lemma QuotedExact(t: string, v: string)
    ensures Quoted(t) == Some(v) <==> v != [] && '\'' !in v && v + "';" <= t
  {
    if Quoted(t) == Some(v) {
      AppendPrefix(v, "';", t[|v|..], t);
    }
    if v != [] && '\'' !in v && v + "';" <= t {
      AppendPrefixInv(v, "';", t);
      ConsPrefixInv('\'', ";", t[|v|..]);
      var x := t[|v|..][1..];
      assert t[|v|..] == "'" + x;
      TakeNonQuoteLands(v, x);
    }
  }

  /** The tail of an assignment after its key. */
  function AfterKeyText(w1: string, w2: string, v: string): string {
    w1 + ("=" + AfterEqualsText(w2, v))
  }

  /** The tail of an assignment after its `=`. */
  function AfterEqualsText(w2: string, v: string): string {
    w2 + ("'" + (v + "';"))
  }

  lemma AfterEqualsSound(t: string, v: string) returns (w: string)
    requires AfterEquals(t) == Some(v)
    ensures v != [] && '\'' !in v
    ensures AllSpace(w) && AfterEqualsText(w, v) <= t
  {
    var u := TrimStart(t);
    TrimStartSplits(t);
    w := t[..|t| - |u|];
    QuotedExact(u[1..], v);
    ConsPrefix('\'', v + "';", u);
    AppendPrefix(w, "'" + (v + "';"), u, t);
  }

  lemma AfterEqualsComplete(t: string, w2: string, v: string)
    requires v != [] && '\'' !in v && AllSpace(w2) && AfterEqualsText(w2, v) <= t
    ensures AfterEquals(t) == Some(v)
  {
    AppendPrefixInv(w2, "'" + (v + "';"), t);
    var rest := t[|w2|..];
    ConsPrefixInv('\'', v + "';", rest);
    TrimStartLands(w2, rest);
    QuotedExact(rest[1..], v);
  }

  lemma AfterKeySound(t: string, v: string) returns (w1: string, w2: string)
    requires AfterKey(t) == Some(v)
    ensures v != [] && '\'' !in v
    ensures AllSpace(w1) && AllSpace(w2) && AfterKeyText(w1, w2, v) <= t
  {
    var u := TrimStart(t);
    TrimStartSplits(t);
    w1 := t[..|t| - |u|];
    w2 := AfterEqualsSound(u[1..], v);
    ConsPrefix('=', AfterEqualsText(w2, v), u);
    AppendPrefix(w1, "=" + AfterEqualsText(w2, v), u, t);
  }

  lemma AfterKeyComplete(t: string, w1: string, w2: string, v: string)
    requires v != [] && '\'' !in v && AllSpace(w1) && AllSpace(w2) && AfterKeyText(w1, w2, v) <= t
    ensures AfterKey(t) == Some(v)
  {
    AppendPrefixInv(w1, "=" + AfterEqualsText(w2, v), t);
    var rest := t[|w1|..];
    ConsPrefixInv('=', AfterEqualsText(w2, v), rest);
    TrimStartLands(w1, rest);
    AfterEqualsComplete(rest[1..], w2, v);
  }

  /** The scanner is exact: it yields `v` at `i` if and only if the pattern matches there with
      capture `v`. In particular the capture at a position is unique. */
  lemma MatchAtExact(s: string, key: string, i: nat, v: string)
    ensures MatchAt(s, key, i) == Some(v) <==> Occurs(s, key, i, v)
  {
    if MatchAt(s, key, i) == Some(v) { MatchAtSound(s, key, i, v); }
    if Occurs(s, key, i, v) { MatchAtComplete(s, key, i, v); }
  }

  lemma MatchAtSound(s: string, key: string, i: nat, v: string)
    requires MatchAt(s, key, i) == Some(v)
    ensures Occurs(s, key, i, v)
  {
    var t := s[i..];
    var w1, w2 := AfterKeySound(t[|key|..], v);
    PrefixSplits(key, t);
    AppendPrefix(key, AfterKeyText(w1, w2, v), t[|key|..], t);
    assert Assignment(key, w1, w2, v) <= t;
  }

  lemma MatchAtComplete(s: string, key: string, i: nat, v: string)
    requires Occurs(s, key, i, v)
    ensures MatchAt(s, key, i) == Some(v)
  {
    var t := s[i..];
    var w1, w2 :| AllSpace(w1) && AllSpace(w2) && Assignment(key, w1, w2, v) <= t;
    AppendPrefixInv(key, AfterKeyText(w1, w2, v), t);
    PrefixSplits(key, key + t[|key|..]);
    AfterKeyComplete(t[|key|..], w1, w2, v);
  }

  /** `re.search` tries the pattern at each start position from left to right: the first
      position in `from..upto` where `m` yields a value. */
  function FirstSome<T>(m: nat -> Option<T>, from: nat, upto: nat): (r: Option<T>)
    ensures r.Some? ==> exists i :: from <= i <= upto && m(i) == r && forall j :: from <= j < i ==> m(j).None?
    ensures r.None? ==> forall i :: from <= i <= upto ==> m(i).None?
    decreases upto + 1 - from
  {
    if from > upto then None
    else if m(from).Some? then m(from)
    else FirstSome(m, from + 1, upto)
  }

  /** `re.search(KEY\s*=\s*'([^']+)';, s).group(1)`, or None when nothing matches. */
  function FindValue(s: string, key: string): Option<string> {
    FirstSome(i => MatchAt(s, key, i), 0, |s|)
  }

  /** What `FindValue` yields is the capture of the leftmost match of the pattern; it is
      non-empty and holds no quote; and it is None exactly when the pattern matches nowhere. */
  lemma FindValueIsLeftmostMatch(s: string, key: string)
    ensures FindValue(s, key).Some? ==>
      exists i: nat :: Occurs(s, key, i, FindValue(s, key).value) && (forall j: nat, v :: j < i ==> !Occurs(s, key, j, v))
    ensures FindValue(s, key).Some? ==> FindValue(s, key).value != [] && '\'' !in FindValue(s, key).value
    ensures FindValue(s, key).None? <==> forall i: nat, v :: !Occurs(s, key, i, v)
  {
    var m := (i: nat) => MatchAt(s, key, i);
    var r := FindValue(s, key);
    if r.Some? {
      var i: nat :| i <= |s| && m(i) == r && forall j :: 0 <= j < i ==> m(j).None?;
      MatchAtExact(s, key, i, r.value);
      forall j: nat, v | j < i ensures !Occurs(s, key, j, v) {
        MatchAtExact(s, key, j, v);
        assert m(j).None?;
      }
      assert !forall i: nat, v :: !Occurs(s, key, i, v);
    } else {
      forall i: nat, v ensures !Occurs(s, key, i, v) {
        MatchAtExact(s, key, i, v);
        if i <= |s| { assert m(i).None?; }
      }
    }
  }

  /** The three values of the step; a partial result is a failure. */
  function ReadContext(page: Http<Page>): (r: Result<Context, Error>)
    ensures r.Success? <==>
      (page.Received? && page.body.token.Some?
        && FindValue(page.body.text, SubIdKey).Some? && FindValue(page.body.text, BuildingIdKey).Some?)
    ensures r.Success? ==> r.value.token == page.body.token.value
    ensures r.Success? ==> r.value.subId == FindValue(page.body.text, SubIdKey).value
    ensures r.Success? ==> r.value.buildingId == FindValue(page.body.text, BuildingIdKey).value
  {
    match page
    case TransportError => Failure(TransportFailed)
    case Received(Page(token, text)) =>
      if token.None? then Failure(MissingToken)
      else
        var sub := FindValue(text, SubIdKey);
        var building := FindValue(text, BuildingIdKey);
        if sub.None? || building.None? then Failure(MissingRoutingIds)
        else Success(Context(token.value, sub.value, building.value))
  }

  /** The routing ids are the captures of the leftmost `subId = '…';` and `buildingId = '…';`
      of the page, and a page lacking either one fails even when the token is present. */
  lemma ReadContextRoutingIds(page: Http<Page>)
    requires page.Received?
    ensures ReadContext(page).Success? ==> exists i: nat ::
      && Occurs(page.body.text, SubIdKey, i, ReadContext(page).value.subId)
      && forall j: nat, v :: j < i ==> !Occurs(page.body.text, SubIdKey, j, v)
    ensures ReadContext(page).Success? ==> exists i: nat ::
      && Occurs(page.body.text, BuildingIdKey, i, ReadContext(page).value.buildingId)
      && forall j: nat, v :: j < i ==> !Occurs(page.body.text, BuildingIdKey, j, v)
    ensures page.body.token.Some? &&
      ((forall i: nat, v :: !Occurs(page.body.text, SubIdKey, i, v)) || (forall i: nat, v :: !Occurs(page.body.text, BuildingIdKey, i, v)))
      ==> ReadContext(page) == Failure(MissingRoutingIds)
  {
    FindValueIsLeftmostMatch(page.body.text, SubIdKey);
    FindValueIsLeftmostMatch(page.body.text, BuildingIdKey);
  }

  /** The script goes on only when all three values are non-empty; the routing ids always are,
      so this only asks for a non-empty token. */
  predicate Usable(ctx: Context) {
    ctx.token != "" && ctx.subId != "" && ctx.buildingId != ""
  }
}
