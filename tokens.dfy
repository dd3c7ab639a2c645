/**
 * The join key of a map feature: the last whitespace-separated token of its
 * administrative name (`adm_nm.str.split().str[-1]`). When the name holds no
 * token at all, pandas yields NaN, modelled here as `None`.
 *
 * Trimming and the trailing word are defined for any separator test `sep`;
 * `LastToken` instantiates them with Python's whitespace.
 */
module Tokens {
  import opened Values

  /** The characters Python's `str.split()` treats as separators. */
  predicate IsSpace(c: char)
  {
    c == ' ' || c == '\t' || c == '\n' || c == '\r' || c == '\U{000B}' || c == '\U{000C}'
    || ('\U{001C}' <= c <= '\U{001F}') || c == '\U{0085}' || c == '\U{00A0}' || c == '\U{1680}'
    || ('\U{2000}' <= c <= '\U{200A}') || c == '\U{2028}' || c == '\U{2029}' || c == '\U{202F}'
    || c == '\U{205F}' || c == '\U{3000}'
  }

  /** Every character of `s` is a separator. */
  predicate AllSep(s: string, sep: char -> bool)
  {
    forall i :: 0 <= i < |s| ==> sep(s[i])
  }

  /** No character of `s` is a separator. */
  predicate NoSep(s: string, sep: char -> bool)
  {
    forall i :: 0 <= i < |s| ==> !sep(s[i])
  }

  /** `s` with its trailing separators removed. */
  function TrimEnd(s: string, sep: char -> bool): (r: string)
    ensures |r| <= |s| && r == s[..|r|]
    ensures AllSep(s[|r|..], sep)
    ensures r == [] || !sep(r[|r| - 1])
  {
    if s != [] && sep(s[|s| - 1]) then TrimEnd(s[..|s| - 1], sep) else s
  }

  /** The longest suffix of `s` that holds no separator. */
  function TrailingWord(s: string, sep: char -> bool): (r: string)
    ensures |r| <= |s| && r == s[|s| - |r|..]
    ensures NoSep(r, sep)
    ensures |r| < |s| ==> sep(s[|s| - |r| - 1])
  {
    if s != [] && !sep(s[|s| - 1]) then TrailingWord(s[..|s| - 1], sep) + [s[|s| - 1]] else []
  }

  /**
   * `t` occupies `s[b..e]` as a whole token: nothing but separators follows it
   * and it starts the string or follows a separator.
   */
  predicate TokenAt(s: string, t: string, b: int, e: int, sep: char -> bool)
  {
    0 <= b <= e <= |s| && s[b..e] == t
    && (b == 0 || sep(s[b - 1]))
    && AllSep(s[e..], sep)
  }

  /** The last token of `s` for separator test `sep`, or `None` when there is none. */
  function LastTokenBy(s: string, sep: char -> bool): (r: Option<string>)
    ensures r.None? <==> AllSep(s, sep)
    ensures r.Some? ==> r.value != [] && NoSep(r.value, sep)
    ensures r.Some? ==> exists b, e :: TokenAt(s, r.value, b, e, sep)
  {
    var t := TrimEnd(s, sep);
    if t == [] then
      None
    else
      var w := TrailingWord(t, sep);
      assert TokenAt(s, w, |t| - |w|, |t|, sep) by {
        assert s[|t| - |w|..|t|] == t[|t| - |w|..];
      }
      Some(w)
  }

  /**
   * The last token is determined by its position: any whole token that is
   * followed only by separators is the one `LastTokenBy` returns.
   */
  lemma LastTokenUnique(s: string, t: string, b: int, e: int, sep: char -> bool)
    requires t != [] && NoSep(t, sep)
    requires TokenAt(s, t, b, e, sep)
    ensures LastTokenBy(s, sep) == Some(t)
  {
    assert !sep(s[e - 1]) by { assert s[b..e][e - 1 - b] == s[e - 1]; }
    TrimEndOf(s, e, sep);
    assert s[..e][b..] == t;
    TrailingWordOf(s[..e], b, sep);
  }

  lemma {:induction false} TrimEndOf(s: string, e: int, sep: char -> bool)
    requires 0 < e <= |s| && !sep(s[e - 1]) && AllSep(s[e..], sep)
    ensures TrimEnd(s, sep) == s[..e]
    decreases |s|
  {
    if e < |s| {
      var p := s[..|s| - 1];
      assert sep(s[|s| - 1]) by { assert s[e..][|s| - 1 - e] == s[|s| - 1]; }
      assert AllSep(p[e..], sep) by {
        forall i | 0 <= i < |p[e..]| ensures sep(p[e..][i]) {
          assert p[e..][i] == s[e..][i];
        }
      }
      TrimEndOf(p, e, sep);
      assert p[..e] == s[..e];
    } else {
      assert s[..e] == s;
    }
  }

  lemma {:induction false} TrailingWordOf(s: string, b: int, sep: char -> bool)
    requires 0 <= b <= |s| && NoSep(s[b..], sep) && (b == 0 || sep(s[b - 1]))
    ensures TrailingWord(s, sep) == s[b..]
    decreases |s|
  {
    if b < |s| {
      var p := s[..|s| - 1];
      assert !sep(s[|s| - 1]) by { assert s[b..][|s| - 1 - b] == s[|s| - 1]; }
      assert NoSep(p[b..], sep) by {
        forall i | 0 <= i < |p[b..]| ensures !sep(p[b..][i]) {
          assert p[b..][i] == s[b..][i];
        }
      }
      TrailingWordOf(p, b, sep);
      assert s[b..] == p[b..] + [s[|s| - 1]];
    }
  }

  /** The key `adm_nm.str.split().str[-1]`; `None` stands for pandas' NaN. */
  function LastToken(s: string): (r: Option<string>)
    ensures r.None? <==> AllSep(s, IsSpace)
    ensures r.Some? ==> r.value != [] && NoSep(r.value, IsSpace)
    ensures r.Some? ==> exists b, e :: TokenAt(s, r.value, b, e, IsSpace)
  {
    LastTokenBy(s, IsSpace)
  }

  /** The shape of a district name such as "대구광역시 중구 동인동". */
  lemma ExampleKey()
    ensures LastToken("대구광역시 중구 동인동") == Some("동인동")
    ensures LastToken("  ") == None
  {
    var s := "대구광역시 중구 동인동";
    assert NoSep("동인동", IsSpace);
    assert TokenAt(s, "동인동", 9, 12, IsSpace);
    LastTokenUnique(s, "동인동", 9, 12, IsSpace);
    assert AllSep("  ", IsSpace);
  }
}
