/** String operations the handlers perform in JavaScript: `split(', ')`,
    `e && e.trim()`, `[...new Set(xs)]`, `includes`, `toUpperCase`. */
module Text {

  /** The separator GROUP_CONCAT puts between e-mail addresses. */
  const Sep: string := ", "

  /** `s.split(', ')`: scanning left to right, every occurrence of ", " ends a piece. */
  function Split(s: string): (r: seq<string>)
    ensures |r| >= 1
    decreases |s|
  {
    if |s| < 2 then [s]
    else if s[0] == ',' && s[1] == ' ' then [""] + Split(s[2..])
    else
      var rest := Split(s[1..]);
      [[s[0]] + rest[0]] + rest[1..]
  }

  /** `parts.join(', ')`. */
  function Join(parts: seq<string>): string
    requires |parts| >= 1
    decreases |parts|
  {
    if |parts| == 1 then parts[0] else parts[0] + Sep + Join(parts[1..])
  }

  /** Splitting loses nothing: joining the pieces again gives the input back. */
  lemma {:induction false} JoinSplit(s: string)
    ensures Join(Split(s)) == s
    decreases |s|
  {
    if |s| >= 2 {
      if s[0] == ',' && s[1] == ' ' {
        JoinSplit(s[2..]);
        var rest := Split(s[2..]);
        assert Split(s) == [""] + rest;
        assert ([""] + rest)[1..] == rest;
        assert s == Sep + s[2..];
      } else {
        JoinSplit(s[1..]);
        var rest := Split(s[1..]);
        var first := [s[0]] + rest[0];
        assert Split(s) == [first] + rest[1..];
        if |rest| == 1 {
          assert Join(rest) == rest[0];
        } else {
          assert Join(rest) == rest[0] + Sep + Join(rest[1..]);
          assert ([first] + rest[1..])[1..] == rest[1..];
        }
        assert s == [s[0]] + s[1..];
      }
    }
  }

  /** Splitting "s, e" gives the pieces of s followed by those of e. */
  lemma {:induction false} SplitAppend(s: string, e: string)
    requires s != ""
    ensures Split(s + Sep + e) == Split(s) + Split(e)
    decreases |s|
  {
    var c, tail := s[0], s[1..];
    assert s == [c] + tail;
    if tail == "" {
      AppendOne(c, e);
    } else if c == ',' && tail[0] == ' ' {
      var rest := tail[1..];
      assert s == Sep + rest;
      if rest == "" {
        AppendSepOnly(e);
      } else {
        SplitAppend(rest, e);
        AppendAfterSep(rest, e);
      }
    } else {
      SplitAppend(tail, e);
      AppendAfterChar(c, tail, e);
    }
  }

  lemma AppendOne(c: char, e: string)
    ensures Split([c] + Sep + e) == Split([c]) + Split(e)
  {
    var x := Sep + e;
    assert [c] + Sep + e == [c] + x;
    SplitSep(e);
    SplitChar(c, x);
    var a := Split(x);
    assert a == [""] + Split(e);
    assert a[0] == "" && a[1..] == Split(e);
    assert [c] + a[0] == [c];
  }

  lemma AppendSepOnly(e: string)
    ensures Split(Sep + Sep + e) == Split(Sep) + Split(e)
  {
    assert Sep + Sep + e == Sep + (Sep + e);
    assert Sep == Sep + "";
    SplitSep("");
    SplitSep(Sep + e);
    SplitSep(e);
  }

  lemma AppendAfterSep(rest: string, e: string)
    requires Split(rest + Sep + e) == Split(rest) + Split(e)
    ensures Split(Sep + rest + Sep + e) == Split(Sep + rest) + Split(e)
  {
    assert Sep + rest + Sep + e == Sep + (rest + Sep + e);
    SplitSep(rest + Sep + e);
    SplitSep(rest);
  }

  lemma AppendAfterChar(c: char, tail: string, e: string)
    requires tail != "" && !(c == ',' && tail[0] == ' ')
    requires Split(tail + Sep + e) == Split(tail) + Split(e)
    ensures Split([c] + tail + Sep + e) == Split([c] + tail) + Split(e)
  {
    var x := tail + Sep + e;
    assert [c] + tail + Sep + e == [c] + x;
    SplitChar(c, x);
    SplitChar(c, tail);
    ConsPieces(c, Split(x), Split(tail), Split(e));
  }

  lemma ConsPieces(c: char, a: seq<string>, b: seq<string>, f: seq<string>)
    requires a == b + f && |b| >= 1
    ensures [[c] + a[0]] + a[1..] == ([[c] + b[0]] + b[1..]) + f
  {
    assert a[0] == b[0];
    assert a[1..] == b[1..] + f;
  }

  lemma SplitSep(x: string)
    ensures Split(Sep + x) == [""] + Split(x)
  {
    assert (Sep + x)[2..] == x;
  }

  lemma SplitChar(c: char, x: string)
    requires |x| >= 1 && !(c == ',' && x[0] == ' ')
    ensures Split([c] + x) == [[c] + Split(x)[0]] + Split(x)[1..]
  {
    assert ([c] + x)[1..] == x;
  }

  /** What `String.prototype.trim` removes: the white space and line
      terminators of ECMAScript (tab, line tab, form feed, space, no-break
      space, byte order mark, the Unicode space separators, LF, CR, and the
      line and paragraph separators). */
  predicate IsSpace(c: char) {
    || c == '\t' || c == '\n' || c == '\U{000B}' || c == '\U{000C}' || c == '\r' || c == ' '
    || c == '\U{00A0}' || c == '\U{1680}' || '\U{2000}' <= c <= '\U{200A}'
    || c == '\U{2028}' || c == '\U{2029}' || c == '\U{202F}' || c == '\U{205F}'
    || c == '\U{3000}' || c == '\U{FEFF}'
  }

  /** `e && e.trim()`: the string is not empty and not only white space. */
  predicate NonBlank(e: string) {
    exists i :: 0 <= i < |e| && !IsSpace(e[i])
  }

  predicate NoDuplicates<T(==)>(s: seq<T>) {
    forall i, j :: 0 <= i < j < |s| ==> s[i] != s[j]
  }

  /** `[...new Set(s)]`, walking s with the set of values already emitted. */
  function DedupFrom<T(==,!new)>(s: seq<T>, seen: set<T>): (r: seq<T>)
    ensures forall x :: x in r <==> x in s && x !in seen
    ensures NoDuplicates(r)
    decreases |s|
  {
    if s == [] then []
    else if s[0] in seen then DedupFrom(s[1..], seen)
    else
      var rest := DedupFrom(s[1..], seen + {s[0]});
      assert forall x :: x in s <==> x == s[0] || x in s[1..];
      [s[0]] + rest
  }

  /** `[...new Set(s)]`: every value of s once, at its first occurrence. */
  function Dedup<T(==,!new)>(s: seq<T>): (r: seq<T>)
    ensures forall x :: x in r <==> x in s
    ensures NoDuplicates(r)
  {
    DedupFrom(s, {})
  }

  lemma {:induction false} DedupFromSnoc<T(!new)>(s: seq<T>, seen: set<T>, x: T)
    ensures DedupFrom(s + [x], seen) ==
            if x in s || x in seen then DedupFrom(s, seen) else DedupFrom(s, seen) + [x]
    decreases |s|
  {
    if s == [] {
      assert [x][1..] == [];
    } else {
      var sx := s + [x];
      var tail := s[1..];
      assert sx[0] == s[0] && sx[1..] == tail + [x];
      assert x in s <==> x == s[0] || x in tail;
      if s[0] in seen {
        DedupFromSnoc(tail, seen, x);
        assert DedupFrom(sx, seen) == DedupFrom(tail + [x], seen);
        assert DedupFrom(s, seen) == DedupFrom(tail, seen);
      } else {
        var seen' := seen + {s[0]};
        DedupFromSnoc(tail, seen', x);
        var a := DedupFrom(tail, seen');
        assert DedupFrom(sx, seen) == [s[0]] + DedupFrom(tail + [x], seen');
        assert DedupFrom(s, seen) == [s[0]] + a;
        if x in s || x in seen {
          assert x in tail || x in seen';
          assert DedupFrom(tail + [x], seen') == a;
        } else {
          assert !(x in tail || x in seen');
          assert DedupFrom(tail + [x], seen') == a + [x];
          assert ([s[0]] + a) + [x] == [s[0]] + (a + [x]);
        }
      }
    }
  }

  /** Dedup is the Set's insertion process: appending a value already seen
      changes nothing, a new value goes to the end. */
  lemma DedupSnoc<T(!new)>(s: seq<T>, x: T)
    ensures Dedup(s + [x]) == if x in s then Dedup(s) else Dedup(s) + [x]
  {
    DedupFromSnoc(s, {}, x);
  }

  /** A list without repeats comes out of Dedup unchanged. */
  lemma {:induction false} DedupNoDuplicates<T(!new)>(s: seq<T>)
    requires NoDuplicates(s)
    ensures Dedup(s) == s
    decreases |s|
  {
    if s != [] {
      var init := s[..|s| - 1];
      assert NoDuplicates(init);
      DedupNoDuplicates(init);
      DedupSnoc(init, s[|s| - 1]);
      assert s == init + [s[|s| - 1]];
      assert s[|s| - 1] !in init by {
        forall i | 0 <= i < |init| ensures init[i] != s[|s| - 1] {
          assert s[i] != s[|s| - 1];
        }
      }
    }
  }

  /** The values of a list. */
  function Elements<T(!new)>(s: seq<T>): (r: set<T>)
    ensures forall x :: x in r <==> x in s
  {
    set x | x in s
  }

  /** A list without repeats has exactly as many elements as values. */
  lemma {:induction false} DistinctCount<T(!new)>(s: seq<T>)
    requires NoDuplicates(s)
    ensures |Elements(s)| == |s|
    decreases |s|
  {
    if s != [] {
      var init, last := s[..|s| - 1], s[|s| - 1];
      assert NoDuplicates(init);
      DistinctCount(init);
      assert last !in init by {
        forall i | 0 <= i < |init| ensures init[i] != last {
          assert s[i] != last;
        }
      }
      assert s == init + [last];
      assert Elements(s) == Elements(init) + {last};
    }
  }

  /** COUNT(DISTINCT ..) of a list is the number of its values. */
  lemma DedupCount<T(!new)>(s: seq<T>)
    ensures |Dedup(s)| == |Elements(s)|
  {
    DistinctCount(Dedup(s));
    assert Elements(Dedup(s)) == Elements(s);
  }

  /** A subset has no more elements than its superset. */
  lemma {:induction false} SubsetCard<T>(a: set<T>, b: set<T>)
    requires a <= b
    ensures |a| <= |b|
  {
    assert b == a + (b - a);
  }

  /** A set whose every element is the image of an element of xs has no
      more elements than xs. */
  lemma ImageBound<A, B>(xs: set<A>, ys: set<B>, f: A -> B)
    requires forall y :: y in ys ==> exists x :: x in xs && y == f(x)
    ensures |ys| <= |xs|
  {
    ImageCard(xs, f);
    SubsetCard(ys, set x | x in xs :: f(x));
  }

  /** A function maps a finite set onto no more values than it has elements. */
  lemma {:induction false} ImageCard<A, B>(xs: set<A>, f: A -> B)
    ensures |set x | x in xs :: f(x)| <= |xs|
    decreases |xs|
  {
    if xs != {} {
      var y :| y in xs;
      var rest := xs - {y};
      ImageCard(rest, f);
      var img, imgRest := set x | x in xs :: f(x), set x | x in rest :: f(x);
      assert img == imgRest + {f(y)};
      assert |img| <= |imgRest| + 1;
    }
  }

  /** `s.startsWith(t)`. */
  predicate HasPrefix(s: string, t: string) {
    |t| <= |s| && s[..|t|] == t
  }

  /** `s.includes(t)`, and SQL `s LIKE '%t%'` for a term without wildcards. */
  predicate Contains(s: string, t: string)
    decreases |s|
  {
    HasPrefix(s, t) || (|s| > 0 && Contains(s[1..], t))
  }

  /** Contains agrees with the usual "t occurs at some position" reading. */
  lemma {:induction false} ContainsAt(s: string, t: string, i: nat)
    requires i + |t| <= |s| && s[i..i + |t|] == t
    ensures Contains(s, t)
    decreases i
  {
    if i > 0 {
      assert s[1..][i - 1..i - 1 + |t|] == s[i..i + |t|];
      ContainsAt(s[1..], t, i - 1);
    }
  }

  /** t does not occur in s when one of its characters is nowhere in s. */
  lemma {:induction false} NotContains(s: string, t: string, j: nat)
    requires j < |t| && t[j] !in s
    ensures !Contains(s, t)
    decreases |s|
  {
    if |t| <= |s| {
      assert s[..|t|][j] == s[j];
    }
    if |s| > 0 {
      assert t[j] !in s[1..] by {
        forall i | 0 <= i < |s| - 1 ensures s[1..][i] != t[j] {
          assert s[1..][i] == s[i + 1];
        }
      }
      NotContains(s[1..], t, j);
    }
  }

  /** `c.toUpperCase()` as far as it yields ASCII: the lower-case ASCII
      letters, and the dotless i and the long s, whose upper case is I and S.
      Every other letter has an upper case outside ASCII. */
  function UpperChar(c: char): char {
    if 'a' <= c <= 'z' then (c as int - 32) as char
    else if c == '\U{0131}' then 'I'
    else if c == '\U{017F}' then 'S'
    else c
  }

  function Upper(s: string): (r: string)
    ensures |r| == |s|
    ensures forall i :: 0 <= i < |s| ==> r[i] == UpperChar(s[i])
  {
    if s == [] then [] else [UpperChar(s[0])] + Upper(s[1..])
  }

  /** Text without lower-case letters is its own upper case. */
  lemma UpperUnchanged(s: string)
    requires forall i :: 0 <= i < |s| ==> !('a' <= s[i] <= 'z') && s[i] != '\U{0131}' && s[i] != '\U{017F}'
    ensures Upper(s) == s
  {
  }

  /** `s.length`: JavaScript counts UTF-16 code units, two for a character
      outside the Basic Multilingual Plane. */
  function Utf16Length(s: string): (r: nat)
    ensures |s| <= r <= 2 * |s|
  {
    if s == [] then 0 else (if s[0] as int > 0xFFFF then 2 else 1) + Utf16Length(s[1..])
  }

  /** Two characters the case-insensitive collation of the database treats
      as equal (ASCII letters compared without case). */
  predicate SameLetter(a: char, b: char) {
    Fold(a) == Fold(b)
  }

  function Fold(c: char): char {
    if 'a' <= c <= 'z' then (c as int - 32) as char else c
  }

  /** `a = b` between two strings under that collation. */
  predicate SameText(a: string, b: string) {
    |a| == |b| && forall i :: 0 <= i < |a| ==> SameLetter(a[i], b[i])
  }

  /** SameText is an equivalence. */
  lemma SameTextEquivalence(a: string, b: string, c: string)
    ensures SameText(a, a)
    ensures SameText(a, b) ==> SameText(b, a)
    ensures SameText(a, b) && SameText(b, c) ==> SameText(a, c)
  {
  }

  /** SQL `s LIKE p`: `%` matches any run of characters, `_` any one
      character, a backslash makes the following character literal, and
      every other character matches itself up to case. */
  predicate Like(s: string, p: string)
    decreases |p|, |s|
  {
    if p == [] then s == []
    else if p[0] == '%' then Like(s, p[1..]) || (|s| > 0 && Like(s[1..], p))
    else if p[0] == '_' then |s| > 0 && Like(s[1..], p[1..])
    else if p[0] == '\\' && |p| >= 2 then |s| > 0 && SameLetter(s[0], p[1]) && Like(s[1..], p[2..])
    else |s| > 0 && SameLetter(s[0], p[0]) && Like(s[1..], p[1..])
  }

  /** A term in which LIKE sees no wildcard and no escape. */
  predicate Plain(t: string) {
    forall i :: 0 <= i < |t| ==> t[i] != '%' && t[i] != '_' && t[i] != '\\'
  }

  /** s starts with t up to case. */
  predicate PrefixUpToCase(s: string, t: string) {
    |t| <= |s| && SameText(s[..|t|], t)
  }

  /** s contains t up to case. */
  predicate ContainsUpToCase(s: string, t: string)
    decreases |s|
  {
    PrefixUpToCase(s, t) || (|s| > 0 && ContainsUpToCase(s[1..], t))
  }

  /** A trailing `%` matches whatever is left. */
  lemma {:induction false} LikeRest(s: string)
    ensures Like(s, "%")
    decreases |s|
  {
    if s != [] {
      LikeRest(s[1..]);
    }
  }

  /** For a plain term, `s LIKE 't%'` is "s starts with t up to case". */
  lemma {:induction false} LikePrefix(s: string, t: string)
    requires Plain(t)
    ensures Like(s, t + "%") <==> PrefixUpToCase(s, t)
    decreases |t|
  {
    if t == [] {
      assert t + "%" == "%";
      LikeRest(s);
    } else {
      var p := t + "%";
      assert p[0] == t[0] && p[1..] == t[1..] + "%";
      assert Plain(t[1..]) by {
        forall i | 0 <= i < |t[1..]| ensures t[1..][i] != '%' && t[1..][i] != '_' && t[1..][i] != '\\' {
          assert t[1..][i] == t[i + 1];
        }
      }
      if |s| > 0 {
        LikePrefix(s[1..], t[1..]);
        if |t| <= |s| {
          assert s[1..][..|t| - 1] == s[..|t|][1..];
          SameTextCons(s[..|t|], t);
        }
      }
    }
  }

  lemma SameTextCons(a: string, b: string)
    requires |a| == |b| > 0
    ensures SameText(a, b) <==> SameLetter(a[0], b[0]) && SameText(a[1..], b[1..])
  {
    if SameLetter(a[0], b[0]) && SameText(a[1..], b[1..]) {
      forall i | 0 <= i < |a| ensures SameLetter(a[i], b[i]) {
        if i > 0 {
          assert a[1..][i - 1] == a[i] && b[1..][i - 1] == b[i];
        }
      }
    }
  }

  /** For a plain term, `s LIKE '%t%'` is "s contains t up to case". */
  lemma {:induction false} LikeContains(s: string, t: string)
    requires Plain(t)
    ensures Like(s, "%" + t + "%") <==> ContainsUpToCase(s, t)
    decreases |s|
  {
    var p := "%" + t + "%";
    assert p[0] == '%' && p[1..] == t + "%";
    LikePrefix(s, t);
    if |s| > 0 {
      LikeContains(s[1..], t);
    }
  }

  /** Case does not matter: "ALI" finds "alice". */
  lemma LikeIgnoresCase()
    ensures Like("alice", "%ALI%")
  {
    assert Plain("ALI");
    LikeContains("alice", "ALI");
    assert "alice"[..3] == "ali";
    assert SameText("ali", "ALI");
  }

  /** `_` is a wildcard: a term of two underscores matches every text of at
      least two characters. */
  lemma {:induction false} LikeUnderscores(s: string)
    requires |s| >= 2
    ensures Like(s, "%__%")
  {
    var p := "%__%";
    assert p[1..] == "__%" && p[1..][1..] == "_%" && p[1..][1..][1..] == "%";
    LikeRest(s[2..]);
    assert s[1..][1..] == s[2..];
    assert Like(s[1..], "_%");
    assert Like(s, "__%");
  }

  /** `String(n)` for a natural number: its decimal digits. */
  function DecimalText(n: nat): (r: string)
    ensures |r| > 0
    ensures forall i :: 0 <= i < |r| ==> '0' <= r[i] <= '9'
    decreases n
  {
    var digit := [('0' as int + n % 10) as char];
    if n < 10 then digit else DecimalText(n / 10) + digit
  }
}
