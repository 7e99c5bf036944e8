/** `detectGitName` of passward/git.go: the repository name taken out of a
    clone URL by the regular expression `.+/(.*).git` under Go's leftmost-
    first semantics, where `.` is any character but a newline and both
    quantifiers are greedy. Bytes are taken as characters, which is how Go
    reads an ASCII URL. */
module GitName {
  import opened Base

  /** `.+/(.*).git` matches `s[i..k+4]`: `.+` covers `s[i..j]`, the slash is
      at `j`, the group is `s[j+1..k]`, the unescaped dot takes `s[k]`, and
      "git" follows. */
  predicate MatchAt(s: Bytes, i: int, j: int, k: int)
  {
    0 <= i < j < k && k + 4 <= |s| && s[j] == '/' && s[k + 1..k + 4] == "git" && '\n' !in s[i..k + 1]
  }

  /** The match a backtracking engine reports first: the leftmost start, then
      the longest `.+` (the last eligible slash), then the longest group. */
  ghost predicate Preferred(s: Bytes, i: int, j: int, k: int)
  {
    && MatchAt(s, i, j, k)
    && (forall i', j', k' :: i' < i ==> !MatchAt(s, i', j', k'))
    && (forall j', k' :: j < j' ==> !MatchAt(s, i, j', k'))
    && (forall k' :: k < k' ==> !MatchAt(s, i, j, k'))
  }

  /** The longest group for a start `i` and a slash `j`: the largest `k` up to
      `top` that completes a match. */
  function SearchK(s: Bytes, i: int, j: int, top: int): (r: Option<int>)
    ensures r.Some? ==> j < r.value <= top && MatchAt(s, i, j, r.value)
    ensures forall k' :: (if r.Some? then r.value else j) < k' <= top ==> !MatchAt(s, i, j, k')
    decreases if top <= j then 0 else top - j
  {
    if top <= j then None
    else if MatchAt(s, i, j, top) then Some(top)
    else SearchK(s, i, j, top - 1)
  }

  /** The longest `.+` for a start `i`: the last slash up to `top` after
      which some group completes a match, with that longest group. */
  function SearchJ(s: Bytes, i: int, top: int): (r: Option<(int, int)>)
    ensures r.Some? ==> i < r.value.0 <= top && MatchAt(s, i, r.value.0, r.value.1)
    ensures r.Some? ==> forall k' :: r.value.1 < k' ==> !MatchAt(s, i, r.value.0, k')
    ensures forall j', k' :: (if r.Some? then r.value.0 else i) < j' <= top ==> !MatchAt(s, i, j', k')
    decreases if top <= i then 0 else top - i
  {
    if top <= i then None
    else match SearchK(s, i, top, |s| - 4)
      case Some(k) => Some((top, k))
      case None => SearchJ(s, i, top - 1)
  }

  /** The leftmost start from `i` on at which the pattern matches. */
  function SearchI(s: Bytes, i: nat): (r: Option<(int, int, int)>)
    ensures r.Some? ==> i <= r.value.0 && MatchAt(s, r.value.0, r.value.1, r.value.2)
    ensures r.Some? ==> forall j', k' :: r.value.1 < j' ==> !MatchAt(s, r.value.0, j', k')
    ensures r.Some? ==> forall k' :: r.value.2 < k' ==> !MatchAt(s, r.value.0, r.value.1, k')
    ensures forall i', j', k' :: i <= i' && (r.None? || i' < r.value.0) ==> !MatchAt(s, i', j', k')
    decreases |s| - i
  {
    if i >= |s| then None
    else match SearchJ(s, i, |s| - 1)
      case Some((j, k)) => Some((i, j, k))
      case None => SearchI(s, i + 1)
  }

  /** `regexp.FindStringSubmatch`: nothing when the pattern matches nowhere,
      otherwise the preferred match and its one group. */
  function FindStringSubmatch(s: Bytes): (r: Option<seq<Bytes>>)
    ensures r.None? <==> forall i, j, k :: !MatchAt(s, i, j, k)
    ensures r.Some? ==> |r.value| == 2
    ensures r.Some? ==> exists i, j, k :: Preferred(s, i, j, k) && r.value == [s[i..k + 4], s[j + 1..k]]
  {
    match SearchI(s, 0)
    case None => None
    case Some((i, j, k)) =>
      assert Preferred(s, i, j, k);
      Some([s[i..k + 4], s[j + 1..k]])
  }

  /** `detectGitName`: the group of the match, or "" when there is none. */
  function DetectGitName(url: Bytes): (r: Bytes)
    ensures FindStringSubmatch(url).None? ==> r == []
    ensures FindStringSubmatch(url).Some? ==> r == FindStringSubmatch(url).value[1]
  {
    var matches := FindStringSubmatch(url);
    if matches.Some? && |matches.value| == 2 then matches.value[1] else []
  }

  /** A match always has its one group, so the length test never rejects
      one: the name is "" exactly when nothing matches or the group is
      empty. */
  lemma DetectGitNameEmpty(url: Bytes)
    ensures DetectGitName(url) == [] <==>
      (forall i, j, k :: !MatchAt(url, i, j, k)) || FindStringSubmatch(url).value[1] == []
  {
  }

  /** Without a slash after the first character there is no match. */
  lemma NoSlashNoName(url: Bytes)
    requires forall t :: 1 <= t < |url| ==> url[t] != '/'
    ensures DetectGitName(url) == []
  {
  }

  /** The preferred match's group holds no slash: a slash inside it would
      give a longer `.+`. */
  lemma PreferredGroupHasNoSlash(s: Bytes, i: int, j: int, k: int)
    requires Preferred(s, i, j, k)
    ensures '/' !in s[j + 1..k]
  {
    if '/' in s[j + 1..k] {
      var t :| 0 <= t < |s[j + 1..k]| && s[j + 1..k][t] == '/';
      assert s[j + 1 + t] == '/';
      assert MatchAt(s, i, j + 1 + t, k);
    }
  }

  /** The name is a slash-free piece of the URL, shorter than the URL. */
  lemma DetectGitNameShape(url: Bytes)
    ensures '/' !in DetectGitName(url)
    ensures url != [] ==> |DetectGitName(url)| < |url|
    ensures exists a, b :: 0 <= a <= b <= |url| && DetectGitName(url) == url[a..b]
  {
    var m := FindStringSubmatch(url);
    if m.None? {
      assert DetectGitName(url) == url[0..0];
    } else {
      var i, j, k :| Preferred(url, i, j, k) && m.value == [url[i..k + 4], url[j + 1..k]];
      PreferredGroupHasNoSlash(url, i, j, k);
      assert DetectGitName(url) == url[j + 1..k];
    }
  }

  /** For a newline-free `p + "/" + n + [c] + "git"` with `p` non-empty and no
      slash in `n`, the name is `n`. */
  lemma NameBeforeGit(p: Bytes, n: Bytes, c: Byte)
    requires p != [] && '\n' !in p && '\n' !in n && c != '\n'
    requires '/' !in n
    ensures DetectGitName(p + "/" + n + [c] + "git") == n
  {
    var s: Bytes := p + "/" + n + [c] + "git";
    var j, k := |p|, |p| + 1 + |n|;
    assert s[j] == '/' && s[k] == c;
    assert s[k + 1..k + 4] == "git";
    assert s[0..k + 1] == p + "/" + n + [c];
    assert s[j + 1..k] == n;
    assert MatchAt(s, 0, j, k);
    var m := FindStringSubmatch(s);
    var i', j', k' :| Preferred(s, i', j', k') && m.value == [s[i'..k' + 4], s[j' + 1..k']];
    assert |s| == k + 4;
    assert 0 < i' ==> !MatchAt(s, 0, j, k);
    assert i' == 0;
    assert j' < j ==> !MatchAt(s, 0, j, k);
    assert j' == j;
    assert k' < k ==> !MatchAt(s, 0, j, k);
    assert k' == k;
  }

  /** The usual clone URL: `p/n.git` gives `n`. */
  lemma NameOfDotGitUrl(p: Bytes, n: Bytes)
    requires p != [] && '\n' !in p && '\n' !in n && '/' !in n
    ensures DetectGitName(p + "/" + n + ".git") == n
  {
    NameBeforeGit(p, n, '.');
    assert p + "/" + n + ".git" == p + "/" + n + ['.'] + "git";
  }

  /** The dot is unescaped, so any character may stand before "git". */
  lemma UnescapedDot()
    ensures DetectGitName("h/abcgit") == "ab"
  {
    NameBeforeGit("h", "ab", 'c');
    assert "h" + "/" + "ab" + ['c'] + "git" == "h/abcgit";
  }
}
