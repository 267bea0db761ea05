/** The hand-rolled key scanners of the settings restore (`parseJsonInt`,
    `parseJsonStr`, `inRange`). They are not a JSON parser: they look for the
    first `"key"` anywhere in the text and read what follows its next colon. */
module JsonScan {
  import opened Wrappers
  import opened CText

  /** The needle both scanners search for: the key between double quotes. */
  function Quoted(key: string): string {
    "\"" + key + "\""
  }

  /** Characters skipped between the colon and a number. */
  predicate IsBlank(c: char) {
    c == ' ' || c == '\n' || c == '\r'
  }

  /** Characters collected into a number run. */
  predicate IsNumChar(c: char) {
    IsDigit(c) || c == '-'
  }

  /** A key the firmware passes: a non-empty C string literal without quotes. */
  predicate PlainKey(key: string) {
    |key| > 0 && '"' !in key && '\0' !in key
  }

  /** First index at or after `i` that is not a blank, or `|s|`. */
  function SkipBlanks(s: string, i: nat): (r: nat)
    requires i <= |s|
    ensures i <= r <= |s|
    ensures forall k :: i <= k < r ==> IsBlank(s[k])
    ensures r == |s| || !IsBlank(s[r])
    decreases |s| - i
  {
    if i == |s| || !IsBlank(s[i]) then i else SkipBlanks(s, i + 1)
  }

  /** End of the maximal run of digits and minus signs starting at `i`. */
  function NumberRunEnd(s: string, i: nat): (r: nat)
    requires i <= |s|
    ensures i <= r <= |s|
    ensures forall k :: i <= k < r ==> IsNumChar(s[k])
    ensures r == |s| || !IsNumChar(s[r])
    decreases |s| - i
  {
    if i == |s| || !IsNumChar(s[i]) then i else NumberRunEnd(s, i + 1)
  }

  /** The step both scanners start with: the first colon after the first
      `"key"`, or -1 when the key or the colon is missing. */
  function KeyColon(json: string, key: string): (r: int)
    requires PlainKey(key)
    ensures r == -1 || (0 <= r < |json| && json[r] == ':')
  {
    var idx := IndexOfStr(json, Quoted(key), 0);
    if idx < 0 then -1 else IndexOfChar(json, ':', idx)
  }

  /** `json[i..j]` is the number `parseJsonInt` reads after the colon at
      `colon`: separated from it by blanks only, a maximal non-empty run of
      digits and minus signs. */
  predicate IntSpan(json: string, colon: int, i: int, j: int) {
    && 0 <= colon < i < j <= |json|
    && (forall k :: colon < k < i ==> IsBlank(json[k]))
    && (forall k :: i <= k < j ==> IsNumChar(json[k]))
    && (j == |json| || !IsNumChar(json[j]))
  }

  /** `parseJsonInt`: `None` is a `false` return (the out-parameter is not
      written); `Some(v)` is `true` with `outVal = v`. */
  function ParseJsonInt(json: string, key: string): (r: Option<int>)
    requires PlainKey(key)
    ensures IndexOfStr(json, Quoted(key), 0) < 0 ==> r.None?
    ensures KeyColon(json, key) < 0 ==> r.None?
    ensures r.Some? ==> LONG_MIN <= r.value <= LONG_MAX
  {
    var colon := KeyColon(json, key);
    if colon < 0 then None else NumberAfter(json, colon)
  }

  /** The number `parseJsonInt` reads after the colon at `colon`. */
  function NumberAfter(json: string, colon: nat): (r: Option<int>)
    requires colon < |json|
    ensures r.Some? ==> LONG_MIN <= r.value <= LONG_MAX
  {
    var start := SkipBlanks(json, colon + 1);
    var end := NumberRunEnd(json, start);
    if end == start then None
    else Some(ToInt(json[start..end]))
  }

  /** `parseJsonInt` fails when the key is absent, when no colon follows it,
      or when no digit or minus sign follows the colon and blanks; otherwise
      the value is `toInt` of the maximal run. */
  lemma ParseJsonIntSpec(json: string, key: string)
    requires PlainKey(key)
    ensures ParseJsonInt(json, key).Some? <==>
              (KeyColon(json, key) >= 0 && exists i, j :: IntSpan(json, KeyColon(json, key), i, j))
    ensures forall i, j :: KeyColon(json, key) >= 0 && IntSpan(json, KeyColon(json, key), i, j) ==>
              ParseJsonInt(json, key) == Some(ToInt(json[i..j]))
  {
    var colon := KeyColon(json, key);
    forall i, j | colon >= 0 && IntSpan(json, colon, i, j)
      ensures ParseJsonInt(json, key) == Some(ToInt(json[i..j]))
    {
      NumberAfterOfSpan(json, colon, i, j);
    }
    if colon >= 0 {
      var start := SkipBlanks(json, colon + 1);
      var end := NumberRunEnd(json, start);
      if end > start {
        assert IntSpan(json, colon, start, end);
      }
    }
  }

  lemma {:induction false} NumberRunEndOfRunAny(s: string, i: nat, j: nat)
    requires i <= j <= |s|
    requires forall k :: i <= k < j ==> IsNumChar(s[k])
    requires j == |s| || !IsNumChar(s[j])
    ensures NumberRunEnd(s, i) == j
    decreases j - i
  {
    if i < j {
      NumberRunEndOfRunAny(s, i + 1, j);
    }
  }

  /** `json[q1]` and `json[q2]` are the first two double quotes after the
      colon at `colon`, with no NUL before them. */
  predicate StrSpan(json: string, colon: int, q1: int, q2: int) {
    && 0 <= colon < q1 < q2 < |json|
    && json[q1] == '"' && json[q2] == '"'
    && '"' !in json[colon + 1..q1] && '"' !in json[q1 + 1..q2]
    && '\0' !in json[colon + 1..q2]
  }

  /** `parseJsonStr` into a buffer of `maxLen` bytes: the text between the
      first two quotes after the colon, cut to `maxLen - 1` characters. */
  function ParseJsonStr(json: string, key: string, maxLen: int): (r: Option<string>)
    requires PlainKey(key)
    requires maxLen >= 1
    ensures KeyColon(json, key) < 0 ==> r.None?
    ensures r.Some? ==> |r.value| < maxLen && '"' !in r.value && '\0' !in r.value
  {
    var colon := KeyColon(json, key);
    if colon < 0 then None else QuotedAfter(json, colon, maxLen)
  }

  /** The quoted text `parseJsonStr` takes after the colon at `colon`. */
  function QuotedAfter(json: string, colon: nat, maxLen: int): (r: Option<string>)
    requires colon < |json|
    requires maxLen >= 1
    ensures r.Some? ==> |r.value| < maxLen && '"' !in r.value && '\0' !in r.value
  {
    var qStart := IndexOfChar(json, '"', colon + 1);
    if qStart < 0 then None
    else
      var qEnd := IndexOfChar(json, '"', qStart + 1);
      if qEnd < 0 then None
      else
        var text := json[qStart + 1..qEnd];
        assert '\0' !in text by {
          NoNulBelow(json, qStart + 1, qEnd);
        }
        Some(Take(text, maxLen - 1))
  }

  /** `parseJsonStr` fails when the key, its colon, or either quote after the
      colon is missing; otherwise the text is what lies between the first two
      quotes, cut to the buffer. */
  lemma ParseJsonStrSpec(json: string, key: string, maxLen: int)
    requires PlainKey(key)
    requires maxLen >= 1
    ensures ParseJsonStr(json, key, maxLen).Some? <==>
              (KeyColon(json, key) >= 0 && exists q1, q2 :: StrSpan(json, KeyColon(json, key), q1, q2))
    ensures forall q1, q2 :: KeyColon(json, key) >= 0 && StrSpan(json, KeyColon(json, key), q1, q2) ==>
              ParseJsonStr(json, key, maxLen) == Some(Take(json[q1 + 1..q2], maxLen - 1))
  {
    var colon := KeyColon(json, key);
    if colon >= 0 {
      ParseJsonStrFromColon(json, key, maxLen);
      QuotedAfterSpec(json, colon, maxLen);
    }
  }

  /** The quoted text after a colon exists exactly when a span does, and is
      then the span's text cut to the buffer. */
  lemma QuotedAfterSpec(json: string, colon: nat, maxLen: int)
    requires colon < |json|
    requires maxLen >= 1
    ensures QuotedAfter(json, colon, maxLen).Some? <==> exists q1, q2 :: StrSpan(json, colon, q1, q2)
    ensures forall q1, q2 :: StrSpan(json, colon, q1, q2) ==>
              QuotedAfter(json, colon, maxLen) == Some(Take(json[q1 + 1..q2], maxLen - 1))
  {
    forall q1, q2 | StrSpan(json, colon, q1, q2)
      ensures QuotedAfter(json, colon, maxLen) == Some(Take(json[q1 + 1..q2], maxLen - 1))
    {
      QuotedAfterOfSpan(json, colon, maxLen, q1, q2);
    }
    var qStart := IndexOfChar(json, '"', colon + 1);
    if qStart >= 0 {
      var qEnd := IndexOfChar(json, '"', qStart + 1);
      if qEnd >= 0 {
        QuotesAreStrSpan(json, colon, qStart, qEnd);
      }
    }
  }

  /** Given the span, `parseJsonStr` returns the text between its quotes. */
  lemma ParseJsonStrOfSpan(json: string, key: string, maxLen: int, q1: int, q2: int)
    requires PlainKey(key)
    requires maxLen >= 1
    requires KeyColon(json, key) >= 0 && StrSpan(json, KeyColon(json, key), q1, q2)
    ensures ParseJsonStr(json, key, maxLen) == Some(Take(json[q1 + 1..q2], maxLen - 1))
  {
    QuotedAfterOfSpan(json, KeyColon(json, key), maxLen, q1, q2);
  }

  lemma QuotedAfterOfSpan(json: string, colon: nat, maxLen: int, q1: int, q2: int)
    requires maxLen >= 1
    requires StrSpan(json, colon, q1, q2)
    ensures QuotedAfter(json, colon, maxLen) == Some(Take(json[q1 + 1..q2], maxLen - 1))
  {
    StrSpanIsFirstQuotes(json, colon, q1, q2);
  }

  lemma StrSpanIsFirstQuotes(json: string, colon: nat, q1: nat, q2: nat)
    requires colon < q1 < q2 < |json|
    requires json[q1] == '"' && json[q2] == '"'
    requires '"' !in json[colon + 1..q1] && '"' !in json[q1 + 1..q2]
    requires '\0' !in json[colon + 1..q2]
    ensures IndexOfChar(json, '"', colon + 1) == q1
    ensures IndexOfChar(json, '"', q1 + 1) == q2
  {
    assert json[colon + 1..q1] == json[colon + 1..q2][..q1 - colon - 1];
    IndexOfCharIs(json, '"', colon + 1, q1);
    assert json[q1 + 1..q2] == json[colon + 1..q2][q1 - colon..];
    IndexOfCharIs(json, '"', q1 + 1, q2);
  }

  lemma QuotesAreStrSpan(json: string, colon: nat, q1: nat, q2: nat)
    requires colon < |json|
    requires q1 == IndexOfChar(json, '"', colon + 1) && q1 >= 0
    requires q2 == IndexOfChar(json, '"', q1 + 1) && q2 >= 0
    ensures StrSpan(json, colon, q1, q2)
  {
    NoNulBelow(json, colon + 1, q1);
    NoNulBelow(json, q1 + 1, q2);
    NotInJoin(json, '\0', colon + 1, q1, q2);
  }

  /** A character absent from `s[i..j]`, from `s[j]` and from `s[j+1..k]` is
      absent from `s[i..k]`. */
  lemma NotInJoin(s: string, c: char, i: nat, j: nat, k: nat)
    requires i <= j < k <= |s|
    requires c !in s[i..j] && s[j] != c && c !in s[j + 1..k]
    ensures c !in s[i..k]
  {
    forall m | i <= m < k ensures s[m] != c {
      if m < j {
        assert s[i..j][m - i] == s[m];
      } else if m > j {
        assert s[j + 1..k][m - j - 1] == s[m];
      }
    }
  }

  /** `inRange`: the 32-bit range test of the validator. */
  function InRange(v: int, lo: int, hi: int): (r: bool)
    ensures r <==> lo <= v <= hi
  {
    v >= lo && v <= hi
  }

  /** No occurrence of `n` lies entirely inside `t`. */
  predicate NoOcc(t: string, n: string) {
    forall j :: 0 <= j <= |t| ==> !OccursAt(t, n, j)
  }

  /** Gluing two pieces creates no new occurrence when the left piece ends
      with a character the needle does not contain. */
  lemma {:induction false} NoOccConcat(a: string, b: string, n: string)
    requires NoOcc(a, n) && NoOcc(b, n)
    requires |a| == 0 || a[|a| - 1] !in n
    ensures NoOcc(a + b, n)
  {
    forall j | 0 <= j && j + |n| <= |a + b| ensures !OccursAt(a + b, n, j) {
      if j + |n| <= |a| {
        assert (a + b)[j..j + |n|] == a[j..j + |n|];
        assert !OccursAt(a, n, j);
      } else if j >= |a| {
        assert (a + b)[j..j + |n|] == b[j - |a|..j - |a| + |n|];
        assert !OccursAt(b, n, j - |a|);
      } else {
        assert (a + b)[j..j + |n|][|a| - 1 - j] == a[|a| - 1];
      }
    }
  }

  /** A piece whose only double quote, if any, is its last character holds no
      quoted key. */
  lemma NoOccOneQuote(t: string, key: string)
    requires PlainKey(key)
    requires |t| > 0 && '"' !in t[..|t| - 1]
    ensures NoOcc(t, Quoted(key))
  {
    forall j | 0 <= j <= |t| ensures !OccursAt(t, Quoted(key), j) {
      if j + |key| + 2 <= |t| {
        assert t[j..j + |key| + 2][0] == t[j];
        assert t[..|t| - 1][j] == t[j];
      }
    }
  }

  /** The first `"key"` is at `p` when an occurrence starts at `p`, no NUL
      comes before it, and none lies inside the text up to and including the
      quote at `p`. The key's inner characters are not quotes, so an earlier
      occurrence could not run past that quote. */
  lemma QuotedKeyFirstAt(s: string, key: string, p: nat)
    requires PlainKey(key)
    requires OccursAt(s, Quoted(key), p)
    requires '\0' !in s[..p]
    requires NoOcc(s[..p + 1], Quoted(key))
    ensures IndexOfStr(s, Quoted(key), 0) == p
  {
    var n := Quoted(key);
    forall j | 0 <= j < p ensures !OccursAt(s, n, j) {
      if j + |n| <= p + 1 {
        assert s[..p + 1][j..j + |n|] == s[j..j + |n|];
        assert !OccursAt(s[..p + 1], n, j);
      } else if j + |n| <= |s| {
        assert s[j..j + |n|][p - j] == s[p];
        assert n[p - j] == key[p - j - 1];
        assert s[p..p + |n|][0] == s[p];
      }
    }
    assert s[0..p] == s[..p];
    IndexOfStrIs(s, n, 0, p);
  }

  /** `"key"` occurs at `p`, and it is the first occurrence the scanners
      can see: no NUL comes before it and no earlier occurrence reaches its
      opening quote. */
  predicate KeyFirstAt(s: string, key: string, p: int)
    requires PlainKey(key)
  {
    && OccursAt(s, Quoted(key), p)
    && '\0' !in s[..p]
    && NoOcc(s[..p + 1], Quoted(key))
  }

  /** With the first `"key"` at `p` followed at once by a colon, the
      scanners' colon is that one. */
  lemma KeyColonAt(s: string, key: string, p: nat)
    requires PlainKey(key) && ':' !in key
    requires KeyFirstAt(s, key, p)
    requires p + |key| + 2 < |s| && s[p + |key| + 2] == ':'
    ensures KeyColon(s, key) == p + |key| + 2
  {
    var n := Quoted(key);
    QuotedKeyFirstAt(s, key, p);
    var colon := p + |n|;
    assert s[p..colon] == n;
    assert ':' !in n;
    IndexOfCharIs(s, ':', p, colon);
  }

  /** `parseJsonInt` finds the value written right after the first `"key"`
      in the form `"key": <decimal>` followed by a non-number character. */
  lemma ParseJsonIntAt(s: string, key: string, p: nat, colon: nat, v: int)
    requires PlainKey(key) && ':' !in key
    requires KeyFirstAt(s, key, p) && colon == p + |key| + 2
    requires OccursAt(s, ": " + SDec(v), colon)
    requires colon + 2 + |SDec(v)| < |s| && !IsNumChar(s[colon + 2 + |SDec(v)|])
    requires LONG_MIN <= v <= LONG_MAX
    ensures ParseJsonInt(s, key) == Some(v)
  {
    ColonAt(s, ": " + SDec(v), colon);
    KeyColonAt(s, key, p);
    ParseJsonIntAtColon(s, key, colon, v);
  }

  /** `parseJsonInt` reads the number written as `: <%d>` at its colon. */
  lemma ParseJsonIntAtColon(s: string, key: string, colon: nat, v: int)
    requires PlainKey(key)
    requires KeyColon(s, key) == colon
    requires OccursAt(s, ": " + SDec(v), colon)
    requires colon + 2 + |SDec(v)| < |s| && !IsNumChar(s[colon + 2 + |SDec(v)|])
    requires LONG_MIN <= v <= LONG_MAX
    ensures ParseJsonInt(s, key) == Some(v)
  {
    NumberAfterAt(s, colon, v);
  }

  /** A piece that starts with a colon puts one where it occurs. */
  lemma ColonAt(s: string, t: string, colon: nat)
    requires |t| > 0 && t[0] == ':'
    requires OccursAt(s, t, colon)
    ensures colon < |s| && s[colon] == ':'
  {
    assert s[colon..colon + |t|][0] == s[colon];
  }

  /** After a colon written as `: <%d>` and followed by a non-number
      character, `parseJsonInt` reads that number back. */
  lemma NumberAfterAt(s: string, colon: nat, v: int)
    requires OccursAt(s, ": " + SDec(v), colon)
    requires colon + 2 + |SDec(v)| < |s| && !IsNumChar(s[colon + 2 + |SDec(v)|])
    requires LONG_MIN <= v <= LONG_MAX
    ensures NumberAfter(s, colon) == Some(v)
  {
    var d := SDec(v);
    var start := colon + 2;
    var end := start + |d|;
    var w := s[colon..end];
    assert w == ": " + d;
    assert s[start..end] == w[2..] == d;
    assert s[colon + 1] == w[1] == ' ';
    forall k | start <= k < end ensures IsNumChar(s[k]) {
      assert s[k] == d[k - start];
      SDecChars(v, k - start);
    }
    NumberAfterOfSpan(s, colon, start, end);
    ToIntSDec(v);
  }

  /** `%d` prints only digits and a leading minus sign. */
  lemma SDecChars(v: int, k: nat)
    requires k < |SDec(v)|
    ensures IsNumChar(SDec(v)[k])
  {
    if v < 0 {
      if k > 0 {
        assert SDec(v)[k] == Dec(-v)[k - 1];
      }
    }
  }

  /** Given the span, `parseJsonInt` returns `toInt` of its text. */
  lemma NumberAfterOfSpan(json: string, colon: nat, i: int, j: int)
    requires IntSpan(json, colon, i, j)
    ensures NumberAfter(json, colon) == Some(ToInt(json[i..j]))
  {
    assert SkipBlanks(json, colon + 1) == i by {
      SkipBlanksOverBlanks(json, colon + 1, i);
    }
    NumberRunEndOfRunAny(json, i, j);
  }

  lemma {:induction false} SkipBlanksOverBlanks(s: string, i: nat, j: nat)
    requires i <= j < |s|
    requires forall k :: i <= k < j ==> IsBlank(s[k])
    requires !IsBlank(s[j])
    ensures SkipBlanks(s, i) == j
    decreases j - i
  {
    if i < j {
      SkipBlanksOverBlanks(s, i + 1, j);
    }
  }

  lemma {:induction false} NumberRunEndOfRun(s: string, i: nat, j: nat)
    requires i <= j < |s|
    requires forall k :: i <= k < j ==> IsDigit(s[k])
    requires !IsNumChar(s[j])
    ensures NumberRunEnd(s, i) == j
    decreases j - i
  {
    if i < j {
      NumberRunEndOfRun(s, i + 1, j);
    }
  }

  /** `parseJsonStr` finds the text written right after the first `"key"` in
      the form `"key": "<text>"`, cut to the buffer. */
  lemma ParseJsonStrAt(s: string, key: string, p: nat, colon: nat, v: string, maxLen: int)
    requires PlainKey(key) && ':' !in key
    requires maxLen >= 1
    requires KeyFirstAt(s, key, p) && colon == p + |key| + 2
    requires OccursAt(s, ": \"" + v + "\"", colon)
    requires '\0' !in v && '"' !in v
    ensures ParseJsonStr(s, key, maxLen) == Some(Take(v, maxLen - 1))
  {
    ColonAt(s, ": \"" + v + "\"", colon);
    KeyColonAt(s, key, p);
    ParseJsonStrAtColon(s, key, colon, v, maxLen);
  }

  /** `parseJsonStr` takes the text written as `: "<text>"` at its colon. */
  lemma ParseJsonStrAtColon(s: string, key: string, colon: nat, v: string, maxLen: int)
    requires PlainKey(key)
    requires maxLen >= 1
    requires KeyColon(s, key) == colon
    requires OccursAt(s, ": \"" + v + "\"", colon)
    requires '\0' !in v && '"' !in v
    ensures ParseJsonStr(s, key, maxLen) == Some(Take(v, maxLen - 1))
  {
    QuotedAfterAt(s, colon, v, maxLen);
    ParseJsonStrFromColon(s, key, maxLen);
  }

  lemma ParseJsonStrFromColon(s: string, key: string, maxLen: int)
    requires PlainKey(key) && maxLen >= 1
    requires KeyColon(s, key) >= 0
    ensures ParseJsonStr(s, key, maxLen) == QuotedAfter(s, KeyColon(s, key), maxLen)
  {
  }

  /** After a colon written as `: "<text>"`, `parseJsonStr` takes `<text>`. */
  lemma QuotedAfterAt(s: string, colon: nat, v: string, maxLen: int)
    requires maxLen >= 1
    requires colon < |s|
    requires OccursAt(s, ": \"" + v + "\"", colon)
    requires '\0' !in v && '"' !in v
    ensures QuotedAfter(s, colon, maxLen) == Some(Take(v, maxLen - 1))
  {
    var q1 := colon + 2;
    var q2 := q1 + 1 + |v|;
    var u := ": \"" + v;
    var w := s[colon..q2 + 1];
    assert w == u + "\"";
    assert s[q2] == w[|u|] == '"';
    assert s[colon..q2] == w[..|u|] == u;
    assert s[colon + 1..q2] == u[1..] == " \"" + v;
    assert s[q1 + 1..q2] == u[3..] == v;
    assert s[colon + 1] == u[1] == ' ';
    assert s[colon + 1..q1] == [s[colon + 1]];
    QuotedAfterOfSpan(s, colon, maxLen, q1, q2);
  }
}
