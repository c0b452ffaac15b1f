/** The helpers of lib/utils.ts: `truncateText`, `extractTextFromHtml`, the unit
    arithmetic of `getRelativeTime`. */
module Utils {
  import opened Wrappers
  import opened Types
  import opened JsArray
  import opened JsString
  import opened NoteQueries

  // ---------------------------------------------------------------------------
  // truncateText
  // ---------------------------------------------------------------------------

  /** `truncateText(text, maxLength)`: the text itself when it fits, otherwise
      `text.slice(0, maxLength) + "..."`. A negative `maxLength` counts back from the
      end of the text, as `slice` does. */
  function TruncateText(text: string, maxLength: int): (r: string)
    ensures |text| <= maxLength ==> r == text
    ensures maxLength < |text| ==> |r| >= 3 && r[|r| - 3..] == "..." && r[..|r| - 3] <= text
    ensures 0 <= maxLength < |text| ==> |r| == maxLength + 3 && r[..maxLength] == text[..maxLength]
    ensures maxLength < 0 ==> |r| == (if |text| + maxLength <= 0 then 0 else |text| + maxLength) + 3
  {
    if |text| <= maxLength then text
    else
      var kept := Take(text, maxLength);
      assert (kept + "...")[..|kept|] == kept;
      kept + "..."
  }

  // ---------------------------------------------------------------------------
  // extractTextFromHtml
  // ---------------------------------------------------------------------------

  /** The position of the first `c` in `s`. */
  function IndexOf(s: string, c: char): (i: nat)
    requires c in s
    ensures i < |s| && s[i] == c && forall j :: 0 <= j < i ==> s[j] != c
  {
    if s[0] == c then 0 else 1 + IndexOf(s[1..], c)
  }

  /** No `<` is followed, anywhere later, by a `>`: nothing is left that `/<[^>]*>/`
      could match. */
  ghost predicate NoTag(s: string) {
    forall i, j :: 0 <= i < j < |s| && s[i] == '<' ==> s[j] != '>'
  }

  /** `s.replace(/<[^>]*>/g, " ")`. Scanning from the left, a `<` with a `>` somewhere
      after it starts a match that ends at the first such `>`, and the match becomes one
      space; a `<` without a later `>` cannot match and is kept. */
  function StripTags(s: string): (r: string)
    ensures |r| <= |s|
    ensures forall c :: c in r ==> c == ' ' || c in s
  {
    if s == [] then []
    else if s[0] == '<' && '>' in s[1..] then
      var j := 1 + IndexOf(s[1..], '>');
      var rest := StripTags(s[j + 1..]);
      assert forall c :: c in s[j + 1..] ==> c in s;
      " " + rest
    else
      var rest := StripTags(s[1..]);
      assert forall c :: c in s[1..] ==> c in s;
      [s[0]] + rest
  }

  /** Every white-space character is a plain space and none is followed by another. */
  ghost predicate Collapsed(s: string) {
    && (forall i :: 0 <= i < |s| && IsWhiteSpace(s[i]) ==> s[i] == ' ')
    && (forall i :: 0 <= i < |s| - 1 && IsWhiteSpace(s[i]) ==> !IsWhiteSpace(s[i + 1]))
  }

  /** `s.replace(/\s+/g, " ")`: each maximal run of white space becomes one space. */
  function Collapse(s: string): (r: string)
    ensures |r| <= |s|
    ensures s == [] <==> r == []
    ensures s != [] && IsWhiteSpace(s[0]) ==> r[0] == ' '
    ensures s != [] && !IsWhiteSpace(s[0]) ==> r[0] == s[0]
    decreases |s|
  {
    if s == [] then []
    else if IsWhiteSpace(s[0]) then " " + Collapse(TrimStart(s[1..]))
    else [s[0]] + Collapse(s[1..])
  }

  /** `extractTextFromHtml(html)`: tags become spaces, white-space runs one space, and
      the ends are trimmed. */
  function ExtractTextFromHtml(html: string): (r: string)
    ensures Trimmed(r)
  {
    Trim(Collapse(StripTags(html)))
  }

  lemma {:induction false} StripTagsRemovesTags(s: string)
    ensures NoTag(StripTags(s))
    decreases |s|
  {
    if s == [] {
    } else if s[0] == '<' && '>' in s[1..] {
      var j := 1 + IndexOf(s[1..], '>');
      StripTagsRemovesTags(s[j + 1..]);
      ConsKeepsNoTag(' ', StripTags(s[j + 1..]));
    } else {
      StripTagsRemovesTags(s[1..]);
      if s[0] == '<' {
        assert '>' !in StripTags(s[1..]);
      }
      ConsKeepsNoTag(s[0], StripTags(s[1..]));
    }
  }

  /** Putting a character in front keeps `NoTag` unless it is a `<` with a `>` after it. */
  lemma ConsKeepsNoTag(c: char, s: string)
    requires NoTag(s) && (c == '<' ==> '>' !in s)
    ensures NoTag([c] + s)
  {
    var t := [c] + s;
    forall i, j | 0 <= i < j < |t| && t[i] == '<' ensures t[j] != '>' {
      assert t[j] == s[j - 1];
      if i > 0 { assert t[i] == s[i - 1]; }
    }
  }

  /** The characters of the collapsed string are spaces or characters of the input. */
  lemma {:induction false} CollapseChars(s: string)
    ensures forall c :: c in Collapse(s) ==> c == ' ' || c in s
    decreases |s|
  {
    if s != [] {
      var t := if IsWhiteSpace(s[0]) then TrimStart(s[1..]) else s[1..];
      CollapseChars(t);
      assert forall c :: c in t ==> c in s;
    }
  }

  lemma {:induction false} CollapseIsCollapsed(s: string)
    ensures Collapsed(Collapse(s))
    decreases |s|
  {
    if s != [] {
      var r := Collapse(s);
      var t := if IsWhiteSpace(s[0]) then TrimStart(s[1..]) else s[1..];
      var rest := Collapse(t);
      CollapseIsCollapsed(t);
      assert r == [r[0]] + rest;
      forall i | 0 <= i < |r| - 1 && IsWhiteSpace(r[i]) ensures !IsWhiteSpace(r[i + 1]) {
        if i > 0 { assert r[i] == rest[i - 1]; }
        else { assert r[1] == rest[0]; }
      }
      forall i | 0 <= i < |r| && IsWhiteSpace(r[i]) ensures r[i] == ' ' {
        if i > 0 { assert r[i] == rest[i - 1]; }
      }
    }
  }

  lemma {:induction false} CollapseKeepsNoTag(s: string)
    requires NoTag(s)
    ensures NoTag(Collapse(s))
    decreases |s|
  {
    if s != [] {
      var t := if IsWhiteSpace(s[0]) then TrimStart(s[1..]) else s[1..];
      assert NoTag(t) by {
        var k := |s| - |t|;
        assert t == s[k..];
        forall i, j | 0 <= i < j < |t| && t[i] == '<' ensures t[j] != '>' {
          assert t[i] == s[k + i] && t[j] == s[k + j];
        }
      }
      CollapseKeepsNoTag(t);
      CollapseChars(t);
      if !IsWhiteSpace(s[0]) && s[0] == '<' {
        forall c | c in t ensures c != '>' {
          var m :| 0 <= m < |t| && t[m] == c;
          assert s[m + 1] == c;
        }
      }
      ConsKeepsNoTag(if IsWhiteSpace(s[0]) then ' ' else s[0], Collapse(t));
    }
  }

  /** A piece of a tag-free string is tag-free. */
  lemma InfixKeepsNoTag(s: string, t: string, a: nat)
    requires a + |t| <= |s| && t == s[a..a + |t|] && NoTag(s)
    ensures NoTag(t)
  {
    forall i, j | 0 <= i < j < |t| && t[i] == '<' ensures t[j] != '>' {
      assert t[i] == s[a + i] && t[j] == s[a + j];
    }
  }

  /** A piece of a collapsed string is collapsed. */
  lemma InfixKeepsCollapsed(s: string, t: string, a: nat)
    requires a + |t| <= |s| && t == s[a..a + |t|] && Collapsed(s)
    ensures Collapsed(t)
  {
    forall i | 0 <= i < |t| && IsWhiteSpace(t[i]) ensures t[i] == ' ' {
      assert t[i] == s[a + i];
    }
    forall i | 0 <= i < |t| - 1 && IsWhiteSpace(t[i]) ensures !IsWhiteSpace(t[i + 1]) {
      assert t[i] == s[a + i] && t[i + 1] == s[a + i + 1];
    }
  }

  /** Trimming keeps `NoTag`, since it keeps one piece of the string. */
  lemma TrimKeepsNoTag(s: string)
    requires NoTag(s)
    ensures NoTag(Trim(s))
  {
    var a := TrimIsInfix(s);
    InfixKeepsNoTag(s, Trim(s), a);
  }

  /** Trimming keeps `Collapsed`, since it keeps one piece of the string. */
  lemma TrimKeepsCollapsed(s: string)
    requires Collapsed(s)
    ensures Collapsed(Trim(s))
  {
    var a := TrimIsInfix(s);
    InfixKeepsCollapsed(s, Trim(s), a);
  }

  /** The extracted text has only plain spaces as white space, never two in a row. */
  lemma ExtractTextCollapsed(html: string)
    ensures Collapsed(ExtractTextFromHtml(html))
  {
    CollapseIsCollapsed(StripTags(html));
    TrimKeepsCollapsed(Collapse(StripTags(html)));
  }

  /** The extracted text has no tag left in it. */
  lemma ExtractTextNoTag(html: string)
    ensures NoTag(ExtractTextFromHtml(html))
  {
    StripTagsRemovesTags(html);
    CollapseKeepsNoTag(StripTags(html));
    TrimKeepsNoTag(Collapse(StripTags(html)));
  }

  /** On a string with no tag left, `StripTags` changes nothing. */
  lemma {:induction false} StripTagsOfNoTag(s: string)
    requires NoTag(s)
    ensures StripTags(s) == s
    decreases |s|
  {
    if s != [] {
      if s[0] == '<' {
        forall m | 0 <= m < |s| - 1 ensures s[1..][m] != '>' {
          assert s[1..][m] == s[m + 1];
        }
      }
      InfixKeepsNoTag(s, s[1..], 1);
      StripTagsOfNoTag(s[1..]);
    }
  }

  /** On a collapsed string, `Collapse` changes nothing. */
  lemma {:induction false} CollapseOfCollapsed(s: string)
    requires Collapsed(s)
    ensures Collapse(s) == s
    decreases |s|
  {
    if s != [] {
      var t := s[1..];
      assert Collapsed(t) by {
        InfixKeepsCollapsed(s, t, 1);
      }
      CollapseOfCollapsed(t);
      assert s == [s[0]] + t;
      if IsWhiteSpace(s[0]) {
        assert TrimStart(t) == t by {
          if t != [] {
            assert t[0] == s[1];
            assert !IsWhiteSpace(t[0]);
          }
        }
        assert s[0] == ' ';
        assert Collapse(s) == " " + Collapse(TrimStart(t));
        assert " " == [s[0]];
      } else {
        assert Collapse(s) == [s[0]] + Collapse(t);
      }
    }
  }

  /** `extractTextFromHtml` is idempotent. */
  lemma ExtractTextIdempotent(html: string)
    ensures ExtractTextFromHtml(ExtractTextFromHtml(html)) == ExtractTextFromHtml(html)
  {
    var r := ExtractTextFromHtml(html);
    ExtractTextCollapsed(html);
    ExtractTextNoTag(html);
    StripTagsOfNoTag(r);
    CollapseOfCollapsed(r);
    TrimOfTrimmed(r);
  }

  /** A character other than `<` in front is kept. */
  lemma StripTagsCons(c: char, v: string)
    requires c != '<'
    ensures StripTags([c] + v) == [c] + StripTags(v)
  {
    assert ([c] + v)[0] == c && ([c] + v)[1..] == v;
  }

  /** Text with no `<` in front is kept as it is. */
  lemma {:induction false} StripTagsPrefix(a: string, u: string)
    requires '<' !in a
    ensures StripTags(a + u) == a + StripTags(u)
    decreases |a|
  {
    if a == [] {
      assert a + u == u;
    } else {
      var x, rest := a[0], a[1..];
      assert a == [x] + rest;
      Regroup3([x], rest, u);
      StripTagsCons(x, rest + u);
      StripTagsPrefix(rest, u);
      Regroup3([x], rest, StripTags(u));
    }
  }

  /** A tag `<t>` at the front becomes one space. */
  lemma StripTagsOpen(t: string, b: string)
    requires '>' !in t
    ensures StripTags("<" + t + ">" + b) == " " + StripTags(b)
  {
    var s := "<" + t + ">" + b;
    var u := s[1..];
    assert u == t + ">" + b;
    assert u[|t|] == '>';
    forall j | 0 <= j < |t| ensures u[j] != '>' {
      assert u[j] == t[j];
    }
    assert IndexOf(u, '>') == |t|;
    assert s[|t| + 2..] == b;
  }

  /** One tag: text before it with no `<` is kept, the tag `<t>` becomes one space,
      and stripping goes on after its `>`. */
  lemma StripTagsStep(a: string, t: string, b: string)
    requires '<' !in a && '>' !in t
    ensures StripTags(a + "<" + t + ">" + b) == a + " " + StripTags(b)
  {
    Regroup5(a, "<", t, ">", b);
    StripTagsPrefix(a, "<" + t + ">" + b);
    StripTagsOpen(t, b);
    Regroup3(a, " ", StripTags(b));
  }

  /** A character other than white space in front is kept. */
  lemma CollapseCons(c: char, v: string)
    requires !IsWhiteSpace(c)
    ensures Collapse([c] + v) == [c] + Collapse(v)
  {
    assert ([c] + v)[0] == c && ([c] + v)[1..] == v;
  }

  /** Text with no white space in front is kept as it is. */
  lemma {:induction false} CollapsePrefix(a: string, u: string)
    requires forall i :: 0 <= i < |a| ==> !IsWhiteSpace(a[i])
    ensures Collapse(a + u) == a + Collapse(u)
    decreases |a|
  {
    if a == [] {
      assert a + u == u;
    } else {
      var x, rest := a[0], a[1..];
      assert a == [x] + rest;
      assert forall i :: 0 <= i < |rest| ==> !IsWhiteSpace(rest[i]) by {
        forall i | 0 <= i < |rest| ensures !IsWhiteSpace(rest[i]) {
          assert rest[i] == a[i + 1];
        }
      }
      Regroup3([x], rest, u);
      CollapseCons(x, rest + u);
      CollapsePrefix(rest, u);
      Regroup3([x], rest, Collapse(u));
    }
  }

  /** A run of white space at the front becomes one space. */
  lemma CollapseRun(w: string, b: string)
    requires w != [] && forall i :: 0 <= i < |w| ==> IsWhiteSpace(w[i])
    requires b == [] || !IsWhiteSpace(b[0])
    ensures Collapse(w + b) == " " + Collapse(b)
  {
    var s := w + b;
    assert s[0] == w[0] && IsWhiteSpace(s[0]);
    assert s[1..] == w[1..] + b;
    TrimStartSkips(w[1..], b);
  }

  /** One run of white space: the text before it with no white space is kept, the run
      becomes one space, and collapsing goes on after it. */
  lemma CollapseStep(a: string, w: string, b: string)
    requires forall i :: 0 <= i < |a| ==> !IsWhiteSpace(a[i])
    requires w != [] && forall i :: 0 <= i < |w| ==> IsWhiteSpace(w[i])
    requires b == [] || !IsWhiteSpace(b[0])
    ensures Collapse(a + w + b) == a + " " + Collapse(b)
  {
    Regroup3(a, w, b);
    CollapsePrefix(a, w + b);
    CollapseRun(w, b);
    Regroup3(a, " ", Collapse(b));
  }

  /** Text with no tag, no doubled or non-space white space and no white space at its ends
      comes out of `extractTextFromHtml` unchanged. */
  lemma ExtractTextOfPlain(s: string)
    requires NoTag(s) && Collapsed(s) && Trimmed(s)
    ensures ExtractTextFromHtml(s) == s
  {
    StripTagsOfNoTag(s);
    CollapseOfCollapsed(s);
    TrimOfTrimmed(s);
  }

  // ---------------------------------------------------------------------------
  // getRelativeTime
  // ---------------------------------------------------------------------------

  datatype TimeUnit = Second | Minute | Hour | Day | Month | Year

  /** The amount and unit that `getRelativeTime` reports. */
  datatype Ago = Ago(amount: int, unit: TimeUnit)

  /** `Math.floor((now.getTime() - date.getTime()) / 1000)`, from the two instants in
      milliseconds. */
  function DiffInSeconds(nowMs: int, thenMs: int): (d: int)
    ensures d * 1000 <= nowMs - thenMs < d * 1000 + 1000
  {
    (nowMs - thenMs) / 1000
  }

  /** The cascade of `getRelativeTime`: each unit is the floor of the previous one
      divided by 60, 60, 24, 30 and 12, and the first amount under its bound is
      reported. A date in the future gives a negative number of seconds. */
  function RelativeTime(diffInSeconds: int): (t: Ago)
    ensures t.unit != Second ==> 1 <= t.amount
    ensures t.unit == Minute ==> t.amount < 60
    ensures t.unit == Hour ==> t.amount < 24
    ensures t.unit == Day ==> t.amount < 30
    ensures t.unit == Month ==> t.amount < 12
  {
    if diffInSeconds < 60 then Ago(diffInSeconds, Second)
    else
      var diffInMinutes := diffInSeconds / 60;
      if diffInMinutes < 60 then Ago(diffInMinutes, Minute)
      else
        var diffInHours := diffInMinutes / 60;
        if diffInHours < 24 then Ago(diffInHours, Hour)
        else
          var diffInDays := diffInHours / 24;
          if diffInDays < 30 then Ago(diffInDays, Day)
          else
            var diffInMonths := diffInDays / 30;
            if diffInMonths < 12 then Ago(diffInMonths, Month)
            else Ago(diffInMonths / 12, Year)
  }

  /** The bucket depends on the seconds alone, with a month of 30 days and a year of 12
      months, and the amount is the number of whole units in `diffInSeconds`. */
  lemma RelativeTimeBuckets(d: int)
    ensures RelativeTime(d).unit == Second <==> d < 60
    ensures RelativeTime(d).unit == Minute <==> 60 <= d < 3600
    ensures RelativeTime(d).unit == Hour <==> 3600 <= d < 86400
    ensures RelativeTime(d).unit == Day <==> 86400 <= d < 2592000
    ensures RelativeTime(d).unit == Month <==> 2592000 <= d < 31104000
    ensures RelativeTime(d).unit == Year <==> 31104000 <= d
    ensures var t := RelativeTime(d); t.unit == Second ==> t.amount == d
    ensures var t := RelativeTime(d); t.unit != Second ==>
      var size := UnitSeconds(t.unit); t.amount * size <= d < t.amount * size + size
  {
    if 60 <= d {
      var m := d / 60;
      assert 60 * m <= d < 60 * m + 60;
      var h := m / 60;
      assert 3600 * h <= d < 3600 * h + 3600;
      var dd := h / 24;
      assert 86400 * dd <= d < 86400 * dd + 86400;
      var mo := dd / 30;
      assert 2592000 * mo <= d < 2592000 * mo + 2592000;
      var y := mo / 12;
      assert 31104000 * y <= d < 31104000 * y + 31104000;
    }
  }

  /** The length of a unit in seconds, with a month of 30 days and a year of 12 months. */
  function UnitSeconds(u: TimeUnit): nat {
    match u
    case Second => 1
    case Minute => 60
    case Hour => 3600
    case Day => 86400
    case Month => 2592000
    case Year => 31104000
  }

  function UnitName(u: TimeUnit): string {
    match u
    case Second => "second"
    case Minute => "minute"
    case Hour => "hour"
    case Day => "day"
    case Month => "month"
    case Year => "year"
  }

  /** The template strings: `${n} seconds ago` always, `${n} <unit>${n > 1 ? "s" : ""} ago`
      for the other units. */
  function Phrase(t: Ago): (r: string)
    ensures IntToString(t.amount) + " " <= r
    ensures |r| >= 5 && r[|r| - 4..] == " ago"
    ensures r[|r| - 5..] == "s ago" <==> t.unit == Second || t.amount > 1
  {
    var n := IntToString(t.amount);
    if t.unit == Second then
      SecondsPhrase(n);
      PhraseParts(n, "second", true);
      n + " seconds ago"
    else
      PhraseParts(n, UnitName(t.unit), t.amount > 1);
      n + " " + UnitName(t.unit) + (if t.amount > 1 then "s" else "") + " ago"
  }

  /** Proof step: the seconds phrase is the singular word with an `s`. */
  lemma SecondsPhrase(n: string)
    ensures n + " seconds ago" == n + " " + "second" + "s" + " ago"
  {
  }

  /** A phrase built as number, space, word, optional `s`, ` ago`: it starts with the
      number and a space, ends with ` ago`, and ends with `s ago` exactly when the `s`
      is there, given a word that does not itself end in `s`. */
  lemma PhraseParts(n: string, word: string, plural: bool)
    requires word != [] && word[|word| - 1] != 's'
    ensures var p := n + " " + word + (if plural then "s" else "") + " ago";
      && n + " " <= p
      && |p| >= 5 && p[|p| - 4..] == " ago"
      && (p[|p| - 5..] == "s ago" <==> plural)
  {
    var head := n + " " + word;
    var p := head + (if plural then "s" else "") + " ago";
    assert p == (n + " ") + (word + (if plural then "s" else "") + " ago");
    if plural {
      assert p == head + "s ago";
    } else {
      assert p == head + " ago";
      assert p[|p| - 5] == head[|head| - 1] == word[|word| - 1];
    }
  }

  /** `getRelativeTime(dateString)` at the instant `nowMs`, for a date at `thenMs`: the
      amount of the chosen unit, then the unit, plural unless it is one minute, hour,
      day, month or year, then `ago`. */
  function GetRelativeTime(nowMs: int, thenMs: int): (r: string)
    ensures var t := RelativeTime(DiffInSeconds(nowMs, thenMs));
      && IntToString(t.amount) + " " <= r
      && |r| >= 5 && r[|r| - 4..] == " ago"
      && (r[|r| - 5..] == "s ago" <==> t.unit == Second || t.amount != 1)
  {
    Phrase(RelativeTime(DiffInSeconds(nowMs, thenMs)))
  }

  /** Seconds are always plural; any other unit is singular exactly when the amount is
      1, since beyond seconds the amount is never below 1. */
  lemma PluralRule(d: int)
    ensures var p := GetRelativeTime(d * 1000, 0);
      |p| >= 5 && (p[|p| - 5..] == "s ago" <==> RelativeTime(d).unit == Second || RelativeTime(d).amount != 1)
  {
    assert DiffInSeconds(d * 1000, 0) == d;
  }
}
