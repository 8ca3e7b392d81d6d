/**
 * SQLite's `LIKE` operator as the FAQ queries use it (no ESCAPE clause): the
 * tag filter of core/faq.py `_build_where_clause` matches the stored JSON
 * text of the `tags` column against a pattern.
 */
module SqlLike {
  import opened Text

  /**
   * `s LIKE p`: `%` matches any run of characters, `_` any one character,
   * every other character itself, ASCII letters in either case.
   */
  predicate Like(p: string, s: string)
    decreases |p| + |s|
  {
    if p == [] then s == []
    else if p[0] == '%' then Like(p[1..], s) || (s != [] && Like(p, s[1..]))
    else s != [] && (p[0] == '_' || LowerChar(p[0]) == LowerChar(s[0])) && Like(p[1..], s[1..])
  }

  /** Every pattern matches its own text, wildcards included. */
  lemma {:induction false} LikeSelf(p: string)
    ensures Like(p, p)
  {
    if p != [] {
      LikeSelf(p[1..]);
      if p[0] == '%' {
        assert Like(p, p[1..]);
      }
    }
  }

  /** A trailing `%` absorbs whatever follows. */
  lemma {:induction false} LikeAnyTail(q: string, b: string)
    requires Like(q, q)
    ensures Like(q + "%", q + b)
    decreases |q|, |b|
  {
    if q == [] {
      assert q + "%" == "%" && q + b == b;
      if b != [] {
        LikeAnyTail(q, b[1..]);
        assert q + b[1..] == b[1..];
      }
    } else {
      assert (q + "%")[1..] == q[1..] + "%";
      assert (q + b)[1..] == q[1..] + b;
      LikeSelf(q[1..]);
      LikeAnyTail(q[1..], b);
      if q[0] == '%' {
        assert Like(q + "%", q[1..] + b);
      }
    }
  }

  /** A leading `%` absorbs whatever comes first. */
  lemma {:induction false} LikeAnyHead(p: string, a: string, s: string)
    requires Like(p, s)
    ensures Like("%" + p, a + s)
  {
    if a == [] {
      assert a + s == s;
      assert ("%" + p)[1..] == p;
    } else {
      LikeAnyHead(p, a[1..], s);
      assert (a + s)[1..] == a[1..] + s;
    }
  }

  /** `'%' || q || '%'` matches every text that contains `q`. */
  lemma LikeInfix(q: string, a: string, b: string)
    ensures Like("%" + q + "%", a + q + b)
  {
    LikeSelf(q);
    LikeAnyTail(q, b);
    LikeAnyHead(q + "%", a, q + b);
    assert "%" + q + "%" == "%" + (q + "%");
    assert a + q + b == a + (q + b);
  }

  /**
   * A character of the pattern that is not a wildcard has to meet its equal
   * (up to ASCII case) in the text: the position `k` is where.
   */
  lemma {:induction false} LikeNeedsChar(p: string, s: string, i: nat) returns (k: nat)
    requires Like(p, s) && i < |p| && p[i] != '%' && p[i] != '_'
    ensures k < |s| && LowerChar(s[k]) == LowerChar(p[i])
    decreases |p| + |s|
  {
    if p[0] == '%' {
      if Like(p[1..], s) {
        k := LikeNeedsChar(p[1..], s, i - 1);
      } else {
        k := LikeNeedsChar(p, s[1..], i);
        k := k + 1;
      }
    } else if i == 0 {
      k := 0;
    } else {
      k := LikeNeedsChar(p[1..], s[1..], i - 1);
      k := k + 1;
    }
  }

  /** A pattern with a non-ASCII character matches no text made of ASCII only. */
  lemma NonAsciiNeverMatchesAscii(p: string, s: string, i: nat)
    requires i < |p| && p[i] as int >= 128
    requires forall k :: 0 <= k < |s| ==> s[k] as int < 128
    ensures !Like(p, s)
  {
    if Like(p, s) {
      var k := LikeNeedsChar(p, s, i);
      assert false;
    }
  }
}
