/**
 Who may read a message. The SQL query keeps a whisper when the JSON text of its targets is LIKE
 %"reader"%; the Rust code then filters exactly. The first test must never lose a row of the second.
 */
module WhisperFilter {
  import opened Prelude
  import opened MessageLog

  /** SQLite folds the case of ASCII letters in LIKE. */
  function Fold(c: char): char {
    if 'A' <= c <= 'Z' then (c as int + 32) as char else c
  }

  /** The 26 capital letters of ASCII become small, and all else stays. */
  lemma FoldIs(k: nat, c: char)
    requires k < 26
    ensures Fold("ABCDEFGHIJKLMNOPQRSTUVWXYZ"[k]) == "abcdefghijklmnopqrstuvwxyz"[k]
    ensures c < 'A' || c > 'Z' ==> Fold(c) == c
  {
  }

  /** text LIKE pattern: % stands for any text, _ for any character. */
  predicate Like(pattern: string, text: string)
    decreases |pattern| + |text|
  {
    if pattern == "" then text == ""
    else if pattern[0] == '%' then Like(pattern[1..], text) || (text != "" && Like(pattern, text[1..]))
    else text != "" && (pattern[0] == '_' || Fold(pattern[0]) == Fold(text[0])) && Like(pattern[1..], text[1..])
  }

  function HexDigit(n: nat): char
    requires n < 16
  {
    "0123456789abcdef"[n]
  }

  /** A character inside a JSON string. */
  function Escape(c: char): string {
    if c == '\"' then "\\\""
    else if c == '\\' then "\\\\"
    else if c as int == 8 then "\\b"
    else if c as int == 9 then "\\t"
    else if c as int == 10 then "\\n"
    else if c as int == 12 then "\\f"
    else if c as int == 13 then "\\r"
    else if c as int < 16 then "\\u000" + [HexDigit(c as int)]
    else if c < ' ' then "\\u001" + [HexDigit(c as int - 16)]
    else [c]
  }

  function EscapeAll(s: string): string {
    if s == "" then "" else EscapeAll(Init(s)) + Escape(Last(s))
  }

  function Quote(s: string): string {
    "\"" + EscapeAll(s) + "\""
  }

  function Items(ts: seq<UserId>): string {
    if ts == [] then ""
    else if |ts| == 1 then Quote(ts[0])
    else Items(Init(ts)) + "," + Quote(Last(ts))
  }

  /** The text stored in target_user_ids. */
  function Json(ts: seq<UserId>): string {
    "[" + Items(ts) + "]"
  }

  /** The pattern %"reader"% of the query. */
  function Pattern(reader: UserId): string {
    "%" + (("\"" + reader + "\"") + "%")
  }

  /** What the query lets through. */
  predicate Candidate(r: Row, room: RoomId, reader: UserId) {
    r.room == room
    && (r.targets.None? || r.sender == reader || Like(Pattern(reader), Json(r.targets.value)))
  }

  /** What the reader is given. */
  predicate Visible(r: Row, reader: UserId) {
    r.targets.None? || r.sender == reader || reader in r.targets.value
  }

  /** No character of the id needs an escape in JSON; registered ids are base64url. */
  predicate Plain(id: UserId) {
    forall k :: 0 <= k < |id| ==> id[k] >= ' ' && id[k] != '\"' && id[k] != '\\'
  }

  lemma PlainCharNeedsNoEscape(c: char)
    requires c >= ' ' && c != '\"' && c != '\\'
    ensures Escape(c) == [c]
  {
  }

  lemma InitAndLast(s: string)
    requires s != ""
    ensures s == Init(s) + [Last(s)]
  {
  }

  lemma {:induction false} PlainNeedsNoEscape(id: UserId)
    requires Plain(id)
    ensures EscapeAll(id) == id
    decreases |id|
  {
    if id != "" {
      InitAndLast(id);
      PlainCharNeedsNoEscape(Last(id));
      PlainNeedsNoEscape(Init(id));
    }
  }

  lemma {:induction false} PercentMatchesAll(text: string)
    ensures Like("%", text)
  {
    if text != "" {
      PercentMatchesAll(text[1..]);
    }
  }

  /** A pattern matches its own text, also when it holds wildcards. */
  lemma {:induction false} CommonHead(head: string, pattern: string, text: string)
    requires Like(pattern, text)
    ensures Like(head + pattern, head + text)
  {
    if head == "" {
      assert head + pattern == pattern && head + text == text;
    } else {
      CommonHead(head[1..], pattern, text);
      var p, t := head + pattern, head + text;
      assert p[1..] == head[1..] + pattern && t[1..] == head[1..] + text;
      if head[0] == '%' {
        assert Like(p, t[1..]);
      }
    }
  }

  lemma {:induction false} SkipToMatch(skipped: string, pattern: string, text: string)
    requires Like(pattern, text)
    ensures Like("%" + pattern, skipped + text)
  {
    var p := "%" + pattern;
    assert p[1..] == pattern;
    if skipped == "" {
      assert skipped + text == text;
    } else {
      SkipToMatch(skipped[1..], pattern, text);
      assert (skipped + text)[1..] == skipped[1..] + text;
    }
  }

  lemma {:induction false} ItemsHold(ts: seq<UserId>, k: nat) returns (left: string, right: string)
    requires k < |ts|
    ensures Items(ts) == left + Quote(ts[k]) + right
  {
    if |ts| == 1 {
      left, right := "", "";
    } else if k == |ts| - 1 {
      left, right := Items(Init(ts)) + ",", "";
    } else {
      left, right := ItemsHold(Init(ts), k);
      right := right + "," + Quote(Last(ts));
    }
  }

  lemma FoundBetween(left: string, middle: string, right: string)
    ensures Like("%" + (middle + "%"), left + (middle + right))
  {
    PercentMatchesAll(right);
    CommonHead(middle, "%", right);
    SkipToMatch(left, middle + "%", middle + right);
  }

  lemma Regroup(left: string, middle: string, right: string)
    ensures "[" + (left + middle + right) + "]" == ("[" + left) + (middle + (right + "]"))
  {
  }

  lemma JsonHolds(ts: seq<UserId>, k: nat) returns (left: string, right: string)
    requires k < |ts|
    ensures Json(ts) == left + (Quote(ts[k]) + right)
  {
    left, right := ItemsHold(ts, k);
    Regroup(left, Quote(ts[k]), right);
    left, right := "[" + left, right + "]";
  }

  /** The query never loses a row that the reader may see. */
  lemma VisibleIsCandidate(r: Row, reader: UserId)
    requires Plain(reader) && Visible(r, reader)
    ensures Candidate(r, r.room, reader)
  {
    if r.targets.Some? && r.sender != reader {
      var ts := r.targets.value;
      var k :| 0 <= k < |ts| && ts[k] == reader;
      var left, right := JsonHolds(ts, k);
      PlainNeedsNoEscape(reader);
      FoundBetween(left, Quote(reader), right);
    }
  }

  // ---- What else the query lets through ----

  predicate Base64Url(c: char) {
    'A' <= c <= 'Z' || 'a' <= c <= 'z' || '0' <= c <= '9' || c == '-' || c == '_'
  }

  /** The ids that the server generates: 16 bytes in base64url. */
  predicate Registered(id: UserId) {
    |id| == 22 && forall k :: 0 <= k < |id| ==> Base64Url(id[k])
  }

  predicate LikeChar(p: char, t: char) {
    p == '_' || Fold(p) == Fold(t)
  }

  /** The same but for the case of ASCII letters, and with any character where the first has an underscore. */
  predicate Near(reader: UserId, other: UserId) {
    |reader| == |other| && forall k :: 0 <= k < |reader| ==> LikeChar(reader[k], other[k])
  }

  lemma {:induction false} NearHead(p: string, t: string, pattern: string, text: string)
    requires Near(p, t) && Like(pattern, text) && forall k :: 0 <= k < |p| ==> p[k] != '%'
    ensures Like(p + pattern, t + text)
  {
    if p == "" {
      assert p + pattern == pattern && t + text == text;
    } else {
      NearHead(p[1..], t[1..], pattern, text);
      assert (p + pattern)[1..] == p[1..] + pattern && (t + text)[1..] == t[1..] + text;
    }
  }

  /** A text that begins as a pattern without % demands. */
  predicate Begins(p: string, text: string) {
    |p| <= |text| && forall k :: 0 <= k < |p| ==> LikeChar(p[k], text[k])
  }

  lemma {:induction false} LikeBegins(p: string, text: string)
    requires (forall k :: 0 <= k < |p| ==> p[k] != '%') && Like(p + "%", text)
    ensures Begins(p, text)
  {
    if p != "" {
      assert (p + "%")[1..] == p[1..] + "%";
      LikeBegins(p[1..], text[1..]);
    }
  }

  lemma {:induction false} LikeFinds(p: string, text: string) returns (at: nat)
    requires (forall k :: 0 <= k < |p| ==> p[k] != '%') && Like("%" + (p + "%"), text)
    ensures at <= |text| && Begins(p, text[at..])
  {
    var pattern := "%" + (p + "%");
    assert pattern[1..] == p + "%";
    if Like(p + "%", text) {
      LikeBegins(p, text);
      at := 0;
    } else {
      at := LikeFinds(p, text[1..]);
      at := at + 1;
      assert text[1..][at - 1..] == text[at..];
    }
  }

  lemma QuoteOfRegistered(id: UserId)
    requires Registered(id)
    ensures |Quote(id)| == 24
    ensures forall m :: 0 <= m < 24 ==> (Quote(id)[m] == '\"' <==> m == 0 || m == 23)
    ensures forall m :: 0 <= m < 22 ==> Quote(id)[m + 1] == id[m]
  {
    PlainNeedsNoEscape(id);
    assert Quote(id) == "\"" + id + "\"";
    assert forall m :: 0 <= m < 22 ==> Base64Url(id[m]);
  }

  /** The ids lie 25 characters apart: 22 characters, two quotes and a comma. */
  lemma {:induction false} ItemsLength(ts: seq<UserId>)
    requires ts != [] && forall t :: t in ts ==> Registered(t)
    ensures |Items(ts)| == 25 * |ts| - 1
  {
    QuoteOfRegistered(Last(ts));
    if |ts| > 1 {
      ItemsLength(Init(ts));
    }
  }

  lemma SliceOfHead(all: string, a: string, b: string, i: nat)
    requires all == a + "," + b && i + 24 <= |a|
    ensures |all| > i + 24 && all[i..i + 24] == a[i..i + 24]
    ensures all[i + 24] == if i + 24 < |a| then a[i + 24] else ','
  {
    assert forall m :: 0 <= m < |a| ==> all[m] == a[m];
  }

  lemma SliceOfTail(all: string, a: string, b: string)
    requires all == a + "," + b
    ensures |all| == |a| + 1 + |b| && all[|a| + 1..|a| + 1 + |b|] == b
  {
  }

  lemma InsideQuotes(all: string, i: nat, q: string, id: string)
    requires i + 24 <= |all| && all[i..i + 24] == q && |q| == 24 && |id| == 22
    requires forall m :: 0 <= m < 22 ==> q[m + 1] == id[m]
    ensures all[i + 1..i + 23] == id
  {
    forall m | 0 <= m < 22
      ensures all[i + 1..i + 23][m] == id[m]
    {
      assert all[i + 1 + m] == all[i..i + 24][m + 1];
    }
  }

  lemma LastItem(ts: seq<UserId>)
    requires |ts| > 1 && forall t :: t in ts ==> Registered(t)
    ensures var at := |Items(Init(ts))| + 1;
            at == 25 * (|ts| - 1) && |Items(ts)| == at + 24 && Items(ts)[at..at + 24] == Quote(Last(ts))
  {
    ItemsLength(Init(ts));
    QuoteOfRegistered(Last(ts));
    SliceOfTail(Items(ts), Items(Init(ts)), Quote(Last(ts)));
  }

  lemma EarlierItem(ts: seq<UserId>, at: nat)
    requires |ts| > 1 && at + 24 <= |Items(Init(ts))|
    ensures Items(ts)[at..at + 24] == Items(Init(ts))[at..at + 24]
    ensures |Items(ts)| > at + 24
    ensures Items(ts)[at + 24] == if at + 24 < |Items(Init(ts))| then Items(Init(ts))[at + 24] else ','
  {
    SliceOfHead(Items(ts), Items(Init(ts)), Quote(Last(ts)), at);
  }

  lemma {:induction false} ItemAt(ts: seq<UserId>, k: nat)
    requires (forall t :: t in ts ==> Registered(t)) && k < |ts|
    ensures |Items(ts)| == 25 * |ts| - 1
    ensures Items(ts)[25 * k..25 * k + 24] == Quote(ts[k])
    ensures k + 1 < |ts| ==> Items(ts)[25 * k + 24] == ','
  {
    ItemsLength(ts);
    QuoteOfRegistered(ts[k]);
    if k + 1 < |ts| {
      ItemAt(Init(ts), k);
      EarlierItem(ts, 25 * k);
    } else if k > 0 {
      LastItem(ts);
    }
  }

  lemma QuotePlaces(ts: seq<UserId>, k: nat, m: nat)
    requires (forall t :: t in ts ==> Registered(t)) && k < |ts| && m < 25 && 25 * k + m < |Items(ts)|
    ensures Items(ts)[25 * k + m] == '\"' <==> m == 0 || m == 23
  {
    ItemAt(ts, k);
    QuoteOfRegistered(ts[k]);
    if m < 24 {
      assert Items(ts)[25 * k..25 * k + 24][m] == Items(ts)[25 * k + m];
    }
  }

  lemma {:induction false} SplitPlace(j: nat) returns (k: nat, m: nat)
    ensures j == 25 * k + m && m < 25
  {
    if j < 25 {
      k, m := 0, j;
    } else {
      k, m := SplitPlace(j - 25);
      k := k + 1;
    }
  }

  /** Two quotes at the distance of an id are those of one id. */
  lemma IdStartsAt(ts: seq<UserId>, i: nat) returns (k: nat)
    requires (forall t :: t in ts ==> Registered(t)) && ts != []
    requires i + 23 < |Items(ts)| && Items(ts)[i] == '\"' && Items(ts)[i + 23] == '\"'
    ensures k < |ts| && i == 25 * k
  {
    ItemsLength(ts);
    var m;
    k, m := SplitPlace(i);
    assert k < |ts|;
    QuotePlaces(ts, k, m);
    if m == 23 {
      NoQuoteThere(ts, k, i);
    }
  }

  /** 23 places behind the closing quote of an id lies the last but one character of the next. */
  lemma NoQuoteThere(ts: seq<UserId>, k: nat, i: nat)
    requires (forall t :: t in ts ==> Registered(t)) && i == 25 * k + 23 && i + 23 < |Items(ts)| && ts != []
    ensures Items(ts)[i + 23] != '\"'
  {
    ItemsLength(ts);
    assert i + 23 == 25 * (k + 1) + 21;
    QuotePlaces(ts, k + 1, 21);
  }

  lemma JsonQuotes(ts: seq<UserId>, at: nat)
    requires at + 24 <= |Json(ts)| && Json(ts)[at] == '\"' && Json(ts)[at + 23] == '\"'
    ensures ts != [] && at > 0 && at + 22 < |Items(ts)|
    ensures Items(ts)[at - 1] == '\"' && Items(ts)[at + 22] == '\"'
  {
    var items := Items(ts);
    assert |Json(ts)| == |items| + 2 && Json(ts)[0] == '[' && Json(ts)[|items| + 1] == ']';
    assert forall m :: 0 <= m < |items| ==> Json(ts)[m + 1] == items[m];
  }

  lemma Inside(head: string, s: string, tail: string, a: nat, b: nat)
    requires |head| == 1 && a <= b <= |s|
    ensures (head + s + tail)[a + 1..b + 1] == s[a..b]
  {
  }

  lemma QuotedIsTheId(ts: seq<UserId>, k: nat)
    requires (forall t :: t in ts ==> Registered(t)) && k < |ts|
    ensures 25 * k + 23 <= |Items(ts)| && Items(ts)[25 * k + 1..25 * k + 23] == ts[k]
  {
    ItemAt(ts, k);
    QuoteOfRegistered(ts[k]);
    InsideQuotes(Items(ts), 25 * k, Quote(ts[k]), ts[k]);
  }

  lemma QuotesEncloseAnId(ts: seq<UserId>, at: nat) returns (k: nat)
    requires forall t :: t in ts ==> Registered(t)
    requires at + 24 <= |Json(ts)| && Json(ts)[at] == '\"' && Json(ts)[at + 23] == '\"'
    ensures k < |ts| && Json(ts)[at + 1..at + 23] == ts[k]
  {
    var items := Items(ts);
    JsonQuotes(ts, at);
    k := IdStartsAt(ts, at - 1);
    QuotedIsTheId(ts, k);
    Inside("[", items, "]", at, at + 22);
  }

  lemma NearIsLike(reader: UserId, ts: seq<UserId>, k: nat)
    requires Registered(reader) && k < |ts| && Registered(ts[k]) && Near(reader, ts[k])
    ensures Like(Pattern(reader), Json(ts))
  {
    var left, right := JsonHolds(ts, k);
    var p, t := "\"" + reader + "\"", Quote(ts[k]);
    PlainNeedsNoEscape(ts[k]);
    assert t == "\"" + ts[k] + "\"";
    PercentMatchesAll(right);
    NearHead(p, t, "%", right);
    SkipToMatch(left, p + "%", t + right);
  }

  lemma LikeIsNear(reader: UserId, ts: seq<UserId>) returns (k: nat)
    requires Registered(reader) && (forall t :: t in ts ==> Registered(t)) && Like(Pattern(reader), Json(ts))
    ensures k < |ts| && Near(reader, ts[k])
  {
    var p, text := "\"" + reader + "\"", Json(ts);
    var at := LikeFinds(p, text);
    assert forall m :: 0 <= m < |p| ==> text[at..][m] == text[at + m];
    assert LikeChar(p[0], text[at]) && LikeChar(p[23], text[at + 23]);
    k := QuotesEncloseAnId(ts, at);
    assert Registered(ts[k]);
    forall m | 0 <= m < 22
      ensures LikeChar(reader[m], ts[k][m])
    {
      assert LikeChar(p[m + 1], text[at + (m + 1)]) && text[at + 1..at + 23][m] == text[at + (m + 1)];
    }
  }

  /** With generated ids the query lets through exactly the whispers to or from ids that are near the reader's. */
  lemma CandidateIff(r: Row, room: RoomId, reader: UserId)
    requires Registered(reader) && (r.targets.Some? ==> forall t :: t in r.targets.value ==> Registered(t))
    ensures Candidate(r, room, reader) <==>
              r.room == room
              && (r.targets.None? || r.sender == reader || exists t :: t in r.targets.value && Near(reader, t))
  {
    if r.targets.Some? {
      var ts := r.targets.value;
      if Like(Pattern(reader), Json(ts)) {
        var k := LikeIsNear(reader, ts);
        assert ts[k] in ts;
      }
      if t :| t in ts && Near(reader, t) {
        var k :| 0 <= k < |ts| && ts[k] == t;
        NearIsLike(reader, ts, k);
      }
    }
  }

  /** So it lets through exactly these that the reader may not see: others' whispers to somebody near but not to him. */
  lemma CandidateMayBeInvisible(r: Row, reader: UserId)
    requires Registered(reader) && (r.targets.Some? ==> forall t :: t in r.targets.value ==> Registered(t))
    ensures Candidate(r, r.room, reader) && !Visible(r, reader) <==>
              && r.targets.Some? && r.sender != reader && reader !in r.targets.value
              && exists t :: t in r.targets.value && Near(reader, t)
  {
    CandidateIff(r, r.room, reader);
  }
}
