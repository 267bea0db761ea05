/** What the key scanners find in text laid out the way `buildJsonBackup`
    lays it out: a quoted key is found at its own line as long as the text
    before that line holds no NUL and no other occurrence of it. */
module JsonFind {
  import opened CText
  import opened JsonScan
  import opened Fields
  import opened Backup
  import opened Wrappers

  /** Text that can stand before the line of `key` without disturbing the
      search for it: no NUL, no `"key"` inside, and it does not end inside
      a possible occurrence. */
  predicate Clean(t: string, key: string) {
    && '\0' !in t
    && NoOcc(t, Quoted(key))
    && (|t| == 0 || t[|t| - 1] !in Quoted(key))
  }

  /** The characters of a quoted key are its quotes and key characters. */
  lemma QuotedKeyChars(key: string, ch: char)
    requires KeyName(key)
    requires ch != '"' && !KeyChar(ch)
    ensures ch !in Quoted(key)
  {
    forall k | 0 <= k < |Quoted(key)| ensures Quoted(key)[k] != ch {
      if 0 < k < |key| + 1 {
        assert Quoted(key)[k] == key[k - 1];
      }
    }
  }

  /** Clean pieces glue into a clean text. */
  lemma CleanConcat(a: string, b: string, key: string)
    requires Clean(a, key) && Clean(b, key)
    ensures Clean(a + b, key)
  {
    NoOccConcat(a, b, Quoted(key));
    if |b| == 0 {
      assert a + b == a;
    } else {
      assert (a + b)[|a + b| - 1] == b[|b| - 1];
    }
  }

  /** Text shorter than the needle holds no occurrence of it. */
  lemma ShortNoOcc(t: string, key: string)
    requires |t| < |key| + 2
    ensures NoOcc(t, Quoted(key))
  {
  }

  /** A quoted word other than `key`, between quote-free text and a
      quote-free tail that does not start with a key character, holds no
      `"key"`: an occurrence would have to start at one of the two quotes. */
  lemma QuotedWordNoOcc(pre: string, w: string, post: string, key: string)
    requires KeyName(key)
    requires '"' !in pre && '"' !in w && '"' !in post
    requires w != key
    requires |post| > 0 && !KeyChar(post[0])
    ensures NoOcc(pre + Quoted(w) + post, Quoted(key))
  {
    var t := pre + Quoted(w) + post;
    var n := Quoted(key);
    var q := |pre| + |w| + 1;
    assert t[|pre|] == '"' && t[q] == '"';
    assert forall x :: 0 <= x < |pre| ==> t[x] == pre[x];
    assert forall x :: |pre| < x < q ==> t[x] == w[x - |pre| - 1];
    assert forall x :: q < x < |t| ==> t[x] == post[x - q - 1];
    forall j | 0 <= j <= |t| ensures !OccursAt(t, n, j) {
      if j + |n| <= |t| {
        var m: nat;
        if j == |pre| {
          if |key| < |w| {
            m := |key| + 1;
            assert t[j + m] == w[|key|];
          } else if |key| > |w| {
            m := |w| + 1;
            assert n[m] == key[|w|];
          } else {
            var d :| 0 <= d < |key| && key[d] != w[d];
            m := d + 1;
            assert t[j + m] == w[d] && n[m] == key[d];
          }
        } else if j == q {
          m := 1;
          assert t[j + 1] == post[0] && n[1] == key[0];
        } else {
          m := 0;
          if j < |pre| {
            assert t[j] == pre[j];
          } else if j < q {
            assert t[j] == w[j - |pre| - 1];
          } else {
            assert t[j] == post[j - q - 1];
          }
        }
        assert m < |n| && t[j..j + |n|][m] != n[m];
      }
    }
  }

  /** Indentation: blanks only. */
  predicate Spaces(t: string) {
    forall k :: 0 <= k < |t| ==> t[k] == ' '
  }

  /** The two line endings the document uses. */
  lemma IndentsAreSpaces()
    ensures Spaces(GLOBAL_INDENT) && Spaces(FIELD_INDENT)
  {
  }

  predicate Ending(e: string) {
    e == ",\n" || e == "\n"
  }

  /** A quoted word holds a NUL only if the word does. */
  lemma QuotedHasNoNul(w: string)
    requires '\0' !in w
    ensures '\0' !in Quoted(w)
  {
    forall k | 0 <= k < |Quoted(w)| ensures Quoted(w)[k] != '\0' {
      if 0 < k < |w| + 1 {
        assert Quoted(w)[k] == w[k - 1];
      }
    }
  }

  /** What follows the key on a numeric line: a colon, a blank, digits and
      the ending; no quote and no NUL. */
  lemma NumTail(v: int, ending: string)
    requires Ending(ending)
    ensures var tail := ": " + SDec(v) + ending;
              && '"' !in tail && '\0' !in tail
              && tail[0] == ':' && tail[|tail| - 1] == '\n'
  {
    forall k | 0 <= k < |SDec(v)| ensures SDec(v)[k] != '"' && SDec(v)[k] != '\0' {
      SDecChars(v, k);
    }
  }

  /** A numeric line of another key is clean for `key`. */
  lemma NumLineClean(indent: string, other: string, v: int, ending: string, key: string)
    requires Spaces(indent) && Ending(ending)
    requires KeyName(key) && KeyName(other) && other != key
    ensures Clean(NumLine(indent, other, v, ending), key)
  {
    var tail := ": " + SDec(v) + ending;
    NumTail(v, ending);
    QuotedWordNoOcc(indent, other, tail, key);
    assert NumLine(indent, other, v, ending) == indent + Quoted(other) + tail;
    QuotedKeyChars(key, '\n');
    QuotedHasNoNul(other);
  }

  /** A text line of another key, whose text is neither `key` nor holds a
      quote or NUL, is clean for `key`. */
  lemma StrLineClean(indent: string, other: string, text: string, key: string)
    requires Spaces(indent)
    requires KeyName(key) && KeyName(other) && other != key
    requires '"' !in text && '\0' !in text && text != key
    ensures Clean(StrLine(indent, other, text), key)
  {
    var a := indent + Quoted(other) + ": ";
    var b := Quoted(text) + ",\n";
    QuotedWordNoOcc(indent, other, ": ", key);
    QuotedWordNoOcc("", text, ",\n", key);
    assert "" + Quoted(text) + ",\n" == b;
    QuotedKeyChars(key, ' ');
    NoOccConcat(a, b, Quoted(key));
    assert StrLine(indent, other, text) == a + b;
    QuotedKeyChars(key, '\n');
    QuotedHasNoNul(other);
  }

  /** Keys that are pairwise different. */
  predicate Distinct(keys: seq<string>) {
    forall i, j :: 0 <= i < j < |keys| ==> keys[i] != keys[j]
  }

  /** Numeric lines of keys other than `key` are clean for `key`. */
  lemma {:induction false} NumLinesClean(indent: string, keys: seq<string>, values: seq<int>,
                                         last: string, key: string)
    requires |keys| == |values|
    requires Spaces(indent) && Ending(last) && KeyName(key)
    requires forall k :: 0 <= k < |keys| ==> KeyName(keys[k]) && keys[k] != key
    ensures Clean(NumLines(indent, keys, values, last), key)
    decreases |keys|
  {
    if |keys| > 0 {
      NumLineClean(indent, keys[0], values[0], if |keys| == 1 then last else ",\n", key);
      NumLinesClean(indent, keys[1..], values[1..], last, key);
      CleanConcat(NumLine(indent, keys[0], values[0], if |keys| == 1 then last else ",\n"),
                  NumLines(indent, keys[1..], values[1..], last), key);
    }
  }

  /** A slice of the middle piece of `x + m + y`. */
  lemma Within(x: string, m: string, y: string, a: nat, b: nat)
    requires a <= b <= |m|
    ensures (x + m + y)[|x| + a..|x| + b] == m[a..b]
    ensures (x + m + y)[..|x| + a] == x + m[..a]
  {
  }

  /** The quoted `key` of a line at `p` is the first the scanners see when
      the text before the line is clean and the line starts with blanks. */
  lemma KeyFirstAtLine(s: string, x: string, line: string, y: string, indent: string, key: string)
    requires s == x + line + y
    requires Clean(x, key) && Spaces(indent) && KeyName(key)
    requires |indent| + |key| + 2 <= |line|
    requires line[..|indent|] == indent && line[|indent|..|indent| + |key| + 2] == Quoted(key)
    ensures PlainKey(key) && ':' !in key
    ensures KeyFirstAt(s, key, |x| + |indent|)
  {
    KeyNameIsPlain(key);
    var p := |x| + |indent|;
    Within(x, line, y, |indent|, |indent| + |key| + 2);
    Within(x, line, y, 0, |indent|);
    Within(x, line, y, 0, |indent| + 1);
    assert line[..|indent| + 1] == indent + "\"" by {
      assert line[|indent|] == Quoted(key)[0];
    }
    assert s[..p] == x + indent;
    assert s[..p + 1] == x + (indent + "\"");
    NoOccOneQuote(indent + "\"", key);
    NoOccConcat(x, indent + "\"", Quoted(key));
  }

  /** Where the pieces of a numeric line sit. */
  lemma NumLineLayout(indent: string, key: string, v: int, ending: string)
    requires |ending| > 0
    ensures var line := NumLine(indent, key, v, ending);
            var c := |indent| + |key| + 2;
              && c + 3 + |SDec(v)| <= |line|
              && line[..|indent|] == indent
              && line[|indent|..c] == Quoted(key)
              && line[c..c + 2 + |SDec(v)|] == ": " + SDec(v)
              && line[c + 2 + |SDec(v)|] == ending[0]
  {
    var line := NumLine(indent, key, v, ending);
    var d := SDec(v);
    var c := |indent| + |key| + 2;
    assert line == indent + Quoted(key) + (": " + d) + ending;
    assert line[c + 2 + |d|] == ending[0];
  }

  /** `parseJsonInt` finds the number of the numeric line of `key` when the
      text before the line is clean. */
  lemma FindNum(s: string, x: string, indent: string, key: string, v: int, ending: string, y: string)
    requires s == x + NumLine(indent, key, v, ending) + y
    requires Clean(x, key) && Spaces(indent) && Ending(ending) && KeyName(key)
    requires LONG_MIN <= v <= LONG_MAX
    ensures ParseJsonInt(s, key) == Some(v)
  {
    NumLineLayout(indent, key, v, ending);
    FindNumIn(s, x, NumLine(indent, key, v, ending), y, indent, key, v);
  }

  lemma FindNumIn(s: string, x: string, line: string, y: string, indent: string, key: string, v: int)
    requires s == x + line + y
    requires Clean(x, key) && Spaces(indent) && KeyName(key)
    requires LONG_MIN <= v <= LONG_MAX
    requires var c := |indent| + |key| + 2;
              && c + 3 + |SDec(v)| <= |line|
              && line[..|indent|] == indent
              && line[|indent|..c] == Quoted(key)
              && line[c..c + 2 + |SDec(v)|] == ": " + SDec(v)
              && !IsNumChar(line[c + 2 + |SDec(v)|])
    ensures ParseJsonInt(s, key) == Some(v)
  {
    var d := SDec(v);
    var c := |indent| + |key| + 2;
    KeyFirstAtLine(s, x, line, y, indent, key);
    Within(x, line, y, c, c + 2 + |d|);
    Within(x, line, y, c + 2 + |d|, c + 3 + |d|);
    assert s[|x| + c + 2 + |d|] == line[c + 2 + |d|];
    ParseJsonIntAt(s, key, |x| + |indent|, |x| + c, v);
  }

  /** `parseJsonStr` finds the text of the text line of `key` when the text
      before the line is clean. */
  lemma FindStr(s: string, x: string, indent: string, key: string, text: string, y: string, maxLen: int)
    requires s == x + StrLine(indent, key, text) + y
    requires Clean(x, key) && Spaces(indent) && KeyName(key)
    requires '"' !in text && '\0' !in text
    requires maxLen >= 1
    ensures ParseJsonStr(s, key, maxLen) == Some(Take(text, maxLen - 1))
  {
    var line := StrLine(indent, key, text);
    var c := |indent| + |key| + 2;
    var v := ": \"" + text + "\"";
    assert line == indent + Quoted(key) + v + ",\n";
    assert line[..|indent|] == indent;
    assert line[|indent|..c] == Quoted(key);
    assert line[c..c + |v|] == v;
    KeyFirstAtLine(s, x, line, y, indent, key);
    Within(x, line, y, c, c + |v|);
    ParseJsonStrAt(s, key, |x| + |indent|, |x| + c, text, maxLen);
  }

  /** A text holding a double quote is cut there: `parseJsonStr` takes the
      line's text only up to its first quote. */
  lemma FindStrCut(s: string, x: string, indent: string, key: string, u: string, w: string, y: string,
                   maxLen: int)
    requires s == x + StrLine(indent, key, u + "\"" + w) + y
    requires Clean(x, key) && Spaces(indent) && KeyName(key)
    requires '"' !in u && '\0' !in u
    requires maxLen >= 1
    ensures ParseJsonStr(s, key, maxLen) == Some(Take(u, maxLen - 1))
  {
    var line := StrLine(indent, key, u + "\"" + w);
    var c := |indent| + |key| + 2;
    var v := ": \"" + u + "\"";
    assert line == indent + Quoted(key) + v + (w + "\",\n");
    assert line[..|indent|] == indent;
    assert line[|indent|..c] == Quoted(key);
    assert line[c..c + |v|] == v;
    KeyFirstAtLine(s, x, line, y, indent, key);
    Within(x, line, y, c, c + |v|);
    ParseJsonStrAt(s, key, |x| + |indent|, |x| + c, u, maxLen);
  }

  /** The first line of a non-empty run of numeric lines, and the rest. */
  lemma NumLinesSplit(indent: string, keys: seq<string>, values: seq<int>, last: string)
    requires |keys| == |values| && |keys| > 0
    ensures NumLines(indent, keys, values, last)
         == NumLine(indent, keys[0], values[0], if |keys| == 1 then last else ",\n")
            + NumLines(indent, keys[1..], values[1..], last)
  {
  }

  /** Dropping the first key keeps the keys names and distinct. */
  lemma KeysTail(keys: seq<string>)
    requires |keys| > 0
    requires forall j :: 0 <= j < |keys| ==> KeyName(keys[j])
    requires Distinct(keys)
    ensures forall j :: 0 <= j < |keys[1..]| ==> KeyName(keys[1..][j])
    ensures Distinct(keys[1..])
  {
  }

  /** Among numeric lines of distinct keys, `parseJsonInt` finds the number
      of each key on its own line, when no earlier text mentions the key. */
  lemma {:induction false} FindInNumLines(s: string, x: string, indent: string, keys: seq<string>,
                                          values: seq<int>, last: string, y: string, k: nat)
    requires |keys| == |values| && k < |keys|
    requires s == x + NumLines(indent, keys, values, last) + y
    requires Clean(x, keys[k]) && Spaces(indent) && Ending(last)
    requires forall j :: 0 <= j < |keys| ==> KeyName(keys[j])
    requires Distinct(keys)
    requires LONG_MIN <= values[k] <= LONG_MAX
    ensures PlainKey(keys[k]) && ParseJsonInt(s, keys[k]) == Some(values[k])
    decreases k
  {
    KeyNameIsPlain(keys[k]);
    var e := if |keys| == 1 then last else ",\n";
    var first := NumLine(indent, keys[0], values[0], e);
    var rest := NumLines(indent, keys[1..], values[1..], last);
    NumLinesSplit(indent, keys, values, last);
    if k == 0 {
      Assoc(x + first, rest, y);
      Assoc(x, first, rest);
      FindNum(s, x, indent, keys[0], values[0], e, rest + y);
    } else {
      NumLineClean(indent, keys[0], values[0], e, keys[k]);
      CleanConcat(x, first, keys[k]);
      Assoc(x, first, rest);
      KeysTail(keys);
      assert keys[1..][k - 1] == keys[k] && values[1..][k - 1] == values[k];
      FindInNumLines(s, x + first, indent, keys[1..], values[1..], last, y, k - 1);
    }
  }
}
