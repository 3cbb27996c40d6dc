/** The course page keeps its progress in a browser cookie. `SetCookieString`
    is the text the page assigns to `document.cookie`; `GetCookie` is the
    page's lookup over the `Cookie` header text that the browser exposes,
    pairs `name=value` separated by "; " (section 4.2.1 of RFC 6265). */
module Cookies {
  import opened Util

  // ---------------------------------------------------------------- split and join

  /** `s.split(sep)`: the pieces between separators; there is always one. */
  function Split(s: string, sep: char): (parts: seq<string>)
    ensures |parts| >= 1
    ensures forall i :: 0 <= i < |parts| ==> sep !in parts[i]
  {
    if s == [] then [[]]
    else
      var rest := Split(s[1..], sep);
      if s[0] == sep then [[]] + rest
      else [[s[0]] + rest[0]] + rest[1..]
  }

  /** The pieces with one separator between neighbours. */
  function Join(parts: seq<string>, sep: char): string
    requires |parts| >= 1
  {
    if |parts| == 1 then parts[0] else parts[0] + [sep] + Join(parts[1..], sep)
  }

  /** Joining the pieces of a split gives back the text. */
  lemma {:induction false} JoinOfSplit(s: string, sep: char)
    ensures Join(Split(s, sep), sep) == s
  {
    if s != [] {
      JoinOfSplit(s[1..], sep);
      var rest := Split(s[1..], sep);
      if s[0] != sep {
        if |rest| > 1 {
          assert Join(rest, sep) == rest[0] + [sep] + Join(rest[1..], sep);
          assert ([[s[0]] + rest[0]] + rest[1..])[1..] == rest[1..];
        }
      } else {
        assert ([[]] + rest)[1..] == rest;
      }
    }
  }

  lemma {:induction false} SplitWithoutSeparator(p: string, sep: char)
    requires sep !in p
    ensures Split(p, sep) == [p]
  {
    if p != [] {
      SplitWithoutSeparator(p[1..], sep);
      assert [p[0]] + p[1..] == p;
    }
  }

  lemma {:induction false} SplitAtFirstSeparator(p: string, t: string, sep: char)
    requires sep !in p
    ensures Split(p + [sep] + t, sep) == [p] + Split(t, sep)
  {
    var s := p + [sep] + t;
    if p == [] {
      assert s[1..] == t;
    } else {
      assert s[1..] == p[1..] + [sep] + t;
      SplitAtFirstSeparator(p[1..], t, sep);
      assert [p[0]] + p[1..] == p;
    }
  }

  /** Splitting joined pieces that hold no separator gives back the pieces. */
  lemma {:induction false} SplitOfJoin(parts: seq<string>, sep: char)
    requires |parts| >= 1
    requires forall i :: 0 <= i < |parts| ==> sep !in parts[i]
    ensures Split(Join(parts, sep), sep) == parts
  {
    if |parts| == 1 {
      SplitWithoutSeparator(parts[0], sep);
    } else {
      SplitOfJoin(parts[1..], sep);
      SplitAtFirstSeparator(parts[0], Join(parts[1..], sep), sep);
    }
  }

  // ---------------------------------------------------------------- lookup

  /** The text without its leading spaces. */
  function StripSpaces(c: string): (r: string)
    ensures r == [] || r[0] != ' '
    ensures |r| <= |c| && r == c[|c| - |r|..]
  {
    if c != [] && c[0] == ' ' then
      StripSpaces(c[1..])
    else
      c
  }

  /** The value of the first segment that, without its leading spaces,
      starts with `name=`; `None` is `null`. */
  function CookieLookup(segments: seq<string>, name: string): Option<string>
  {
    if segments == [] then None
    else
      var c := StripSpaces(segments[0]);
      if name + "=" <= c then Some(c[|name| + 1..]) else CookieLookup(segments[1..], name)
  }

  /** The inner loop of `getCookie`: drops spaces while the text starts
      with one. */
  method TrimLeadingSpaces(c0: string) returns (c: string)
    ensures c == StripSpaces(c0)
  {
    c := c0;
    while |c| > 0 && c[0] == ' '
      invariant StripSpaces(c) == StripSpaces(c0)
      decreases |c|
    {
      c := c[1..];
    }
  }

  /** `getCookie(name)` over the text of `document.cookie`. */
  method GetCookie(cookie: string, name: string) returns (r: Option<string>)
    ensures r == CookieLookup(Split(cookie, ';'), name)
  {
    var nameEQ := name + "=";
    var ca := Split(cookie, ';');
    var i := 0;
    while i < |ca|
      invariant 0 <= i <= |ca|
      invariant CookieLookup(ca[i..], name) == CookieLookup(ca, name)
    {
      var c := TrimLeadingSpaces(ca[i]);
      LookupAt(ca, i, name, c);
      if nameEQ <= c {
        return Some(c[|nameEQ|..]);
      }
      i := i + 1;
    }
    assert ca[i..] == [];
    return None;
  }

  /** One step of the lookup: the segment at `i`, stripped to `c`, either
      matches or hands over to the segments after it. */
  lemma LookupAt(segments: seq<string>, i: int, name: string, c: string)
    requires 0 <= i < |segments| && c == StripSpaces(segments[i])
    ensures name + "=" <= c ==> CookieLookup(segments[i..], name) == Some(c[|name| + 1..])
    ensures !(name + "=" <= c) ==> CookieLookup(segments[i..], name) == CookieLookup(segments[i + 1..], name)
  {
    assert segments[i..][0] == segments[i];
    assert segments[i..][1..] == segments[i + 1..];
  }

  /** The text `setCookie` assigns: `name=value;expires=…;path=/`. */
  function SetCookieString(name: string, value: string, expires: string): string
  {
    name + "=" + value + ";expires=" + expires + ";path=/"
  }

  predicate NoLeadingSpace(s: string)
  {
    s == [] || s[0] != ' '
  }

  /** The segment `setCookie` writes is found again by name and yields
      exactly the value written, when name and value hold no `;`. */
  lemma SetCookieFoundAgain(name: string, value: string, expires: string)
    requires ';' !in name && ';' !in value && NoLeadingSpace(name)
    ensures CookieLookup(Split(SetCookieString(name, value, expires), ';'), name) == Some(value)
  {
    var seg := name + "=" + value;
    var rest := "expires=" + expires + ";path=/";
    assert SetCookieString(name, value, expires) == seg + [';'] + rest;
    assert ';' !in seg;
    SplitAtFirstSeparator(seg, rest, ';');
    FirstSegmentFound(name, value, Split(rest, ';'));
  }

  /** A leading segment `name=value` is the one the lookup finds. */
  lemma FirstSegmentFound(name: string, value: string, tail: seq<string>)
    requires NoLeadingSpace(name)
    ensures CookieLookup([name + "=" + value] + tail, name) == Some(value)
  {
    var seg := name + "=" + value;
    assert seg[0] != ' ';
    assert StripSpaces(seg) == seg;
    assert ([seg] + tail)[0] == seg;
    assert seg[|name| + 1..] == value;
  }

  // ---------------------------------------------------------------- the cookie jar

  datatype Cookie = Cookie(name: string, value: string)

  /** A cookie name is a non-empty token: no `;`, `=` or space. */
  predicate ValidName(n: string)
  {
    n != [] && ';' !in n && '=' !in n && ' ' !in n
  }

  predicate ValidJar(jar: seq<Cookie>)
  {
    forall i :: 0 <= i < |jar| ==> ValidName(jar[i].name) && ';' !in jar[i].value
  }

  /** The segment of one cookie; every segment but the first follows a
      space. */
  function Segment(c: Cookie, afterSpace: bool): string
  {
    (if afterSpace then " " else "") + c.name + "=" + c.value
  }

  function Segments(jar: seq<Cookie>, afterSpace: bool): (segs: seq<string>)
    ensures |segs| == |jar|
  {
    if jar == [] then [] else [Segment(jar[0], afterSpace)] + Segments(jar[1..], true)
  }

  /** The text of `document.cookie`: the pairs, separated by "; ". */
  function DocumentCookie(jar: seq<Cookie>): string
  {
    if jar == [] then "" else Join(Segments(jar, false), ';')
  }

  /** The value of the first cookie of that name. */
  function JarGet(jar: seq<Cookie>, name: string): Option<string>
  {
    if jar == [] then None
    else if jar[0].name == name then Some(jar[0].value)
    else JarGet(jar[1..], name)
  }

  /** With names free of `=`, `name=` starts `n=v` exactly when `n` is `name`. */
  lemma PrefixMatchesName(name: string, n: string, v: string)
    requires '=' !in name && '=' !in n
    ensures name + "=" <= n + "=" + v <==> name == n
  {
    var s := n + "=" + v;
    if name + "=" <= s {
      var k := |name|;
      assert s[k] == (name + "=")[k] == '=';
      assert forall i :: 0 <= i < |n| ==> s[i] == n[i];
      assert k >= |n|;
      assert forall i :: 0 <= i < k ==> s[i] == (name + "=")[i] == name[i];
      assert s[|n|] == '=';
      assert k == |n|;
      assert name == (name + "=")[..k] == s[..k] == n;
    }
  }

  lemma {:induction false} SegmentsLookup(jar: seq<Cookie>, afterSpace: bool, name: string)
    requires ValidJar(jar) && '=' !in name
    ensures CookieLookup(Segments(jar, afterSpace), name) == JarGet(jar, name)
  {
    if jar != [] {
      var c := jar[0];
      StripSegment(c, afterSpace);
      PairLookup(c, name);
      assert Segments(jar, afterSpace)[1..] == Segments(jar[1..], true);
      SegmentsLookup(jar[1..], true, name);
    }
  }

  /** Stripping the segment of a cookie leaves its pair `name=value`. */
  lemma StripSegment(c: Cookie, afterSpace: bool)
    requires ValidName(c.name)
    ensures StripSpaces(Segment(c, afterSpace)) == c.name + "=" + c.value
  {
    var pair := c.name + "=" + c.value;
    assert pair[0] == c.name[0] != ' ';
    if afterSpace {
      assert Segment(c, afterSpace) == " " + pair;
      assert (" " + pair)[1..] == pair;
    } else {
      assert Segment(c, afterSpace) == pair;
    }
  }

  /** The pair of a cookie matches `name=` exactly for its own name, and
      then gives its value. */
  lemma PairLookup(c: Cookie, name: string)
    requires ValidName(c.name) && '=' !in name
    ensures var pair := c.name + "=" + c.value;
      (name + "=" <= pair <==> name == c.name) && (name == c.name ==> pair[|name| + 1..] == c.value)
  {
    PrefixMatchesName(name, c.name, c.value);
  }

  /** `getCookie(name)` on the `document.cookie` text of a jar yields the
      value of the first cookie of that name, or `null` when there is none. */
  lemma DocumentCookieLookup(jar: seq<Cookie>, name: string)
    requires ValidJar(jar) && '=' !in name
    ensures CookieLookup(Split(DocumentCookie(jar), ';'), name) == JarGet(jar, name)
  {
    if jar == [] {
      assert Split("", ';') == [""];
    } else {
      var segs := Segments(jar, false);
      forall i | 0 <= i < |segs|
        ensures ';' !in segs[i]
      {
        SegmentHasNoSemicolon(jar, false, i);
      }
      SplitOfJoin(segs, ';');
      SegmentsLookup(jar, false, name);
    }
  }

  lemma {:induction false} SegmentHasNoSemicolon(jar: seq<Cookie>, afterSpace: bool, i: int)
    requires ValidJar(jar) && 0 <= i < |jar|
    ensures ';' !in Segments(jar, afterSpace)[i]
  {
    if i > 0 {
      SegmentHasNoSemicolon(jar[1..], true, i - 1);
    }
  }
}
