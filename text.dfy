/** The two Python string operations the request handlers rely on. */
module Text {

  /** `s.startswith(prefix)`. */
  predicate StartsWith(s: string, prefix: string)
  {
    |prefix| <= |s| && s[..|prefix|] == prefix
  }

  /** True when `pat` occurs somewhere in `s` (Python's `pat in s`). */
  predicate Contains(s: string, pat: string)
    decreases |s|
  {
    |pat| <= |s| && (s[..|pat|] == pat || Contains(s[1..], pat))
  }

  /** `s.replace(pat, "")`: scans left to right and deletes every
      non-overlapping occurrence of `pat`; the text left behind is not
      scanned again. With an empty pattern the string is unchanged. */
  function RemoveAll(s: string, pat: string): (r: string)
    ensures |r| <= |s|
    ensures !Contains(s, pat) ==> r == s
    decreases |s|
  {
    if pat == [] || |s| < |pat| then s
    else if s[..|pat|] == pat then RemoveAll(s[|pat|..], pat)
    else [s[0]] + RemoveAll(s[1..], pat)
  }

  /** One left-to-right pass: the text before the first occurrence is kept,
      that occurrence is deleted, and the pass goes on after it. Together
      with the unchanged result on a string without the pattern, this
      determines `RemoveAll` completely. */
  lemma RemoveAllAtFirst(s: string, pat: string, i: nat)
    requires pat != [] && i + |pat| <= |s| && s[i..i + |pat|] == pat
    requires forall j :: 0 <= j < i ==> !StartsWith(s[j..], pat)
    ensures RemoveAll(s, pat) == s[..i] + RemoveAll(s[i + |pat|..], pat)
  {
    KeepUntil(s, pat, 0, i);
    assert s[0..] == s && s[0..i] == s[..i];
  }

  /** The pass started at `k` keeps `s[k..i]` when no occurrence starts in
      between, and then deletes the occurrence at `i`. */
  lemma {:induction false} KeepUntil(s: string, pat: string, k: nat, i: nat)
    requires pat != [] && k <= i && i + |pat| <= |s| && s[i..i + |pat|] == pat
    requires forall j :: k <= j < i ==> !StartsWith(s[j..], pat)
    ensures RemoveAll(s[k..], pat) == s[k..i] + RemoveAll(s[i + |pat|..], pat)
    decreases i - k
  {
    if k == i {
      DropAt(s, pat, i);
    } else {
      KeepUntil(s, pat, k + 1, i);
      KeepAt(s, pat, k);
      ConsSplit(s, k, i, RemoveAll(s[i + |pat|..], pat));
    }
  }

  /** An occurrence at `i` is deleted and the pass goes on after it. */
  lemma DropAt(s: string, pat: string, i: nat)
    requires pat != [] && i + |pat| <= |s| && s[i..i + |pat|] == pat
    ensures RemoveAll(s[i..], pat) == s[i..i] + RemoveAll(s[i + |pat|..], pat)
  {
    assert s[i..][..|pat|] == pat && s[i..][|pat|..] == s[i + |pat|..];
    assert s[i..i] == [];
  }

  /** Without an occurrence at `k` the character there is kept. */
  lemma KeepAt(s: string, pat: string, k: nat)
    requires pat != [] && k + |pat| <= |s| && !StartsWith(s[k..], pat)
    ensures RemoveAll(s[k..], pat) == [s[k]] + RemoveAll(s[k + 1..], pat)
  {
    assert s[k..][1..] == s[k + 1..];
  }

  /** Re-associating the kept character with the rest of the kept text. */
  lemma ConsSplit(s: string, k: nat, i: nat, rest: string)
    requires k < i <= |s|
    ensures [s[k]] + (s[k + 1..i] + rest) == s[k..i] + rest
  {
    assert s[k..i] == [s[k]] + s[k + 1..i];
  }

  /** A string that contains the pattern gets strictly shorter. */
  lemma {:induction false} RemoveAllShortens(s: string, pat: string)
    requires pat != [] && Contains(s, pat)
    ensures |RemoveAll(s, pat)| < |s|
    decreases |s|
  {
    if s[..|pat|] != pat {
      RemoveAllShortens(s[1..], pat);
    }
  }

  /** Removing every occurrence agrees with stripping the prefix exactly
      when nothing after the prefix contains the pattern again. */
  lemma StripPrefixAgrees(s: string, pat: string)
    requires pat != [] && StartsWith(s, pat)
    ensures RemoveAll(s, pat) == s[|pat|..] <==> !Contains(s[|pat|..], pat)
  {
    if Contains(s[|pat|..], pat) {
      RemoveAllShortens(s[|pat|..], pat);
    }
  }

  /** Prefixing a name that does not contain the pattern and removing the
      pattern again gives back the name. */
  lemma RemovePrefixRoundTrip(pat: string, name: string)
    requires pat != [] && !Contains(name, pat)
    ensures StartsWith(pat + name, pat)
    ensures RemoveAll(pat + name, pat) == name
  {
  }

  /** The text left behind by a deletion is not scanned again: removing the
      inner occurrence joins `vac` and `cine_` into a new one that stays. */
  lemma NoRescan()
    ensures RemoveAll("vaccine_vacvaccine_cine_BCG", "vaccine_") == "vaccine_BCG"
  {
    var pat := "vaccine_";
    var s := "vaccine_vacvaccine_cine_BCG";
    assert s[..|pat|] == pat;
    assert s[|pat|..] == "vacvaccine_cine_BCG";
    InnerRemoval();
  }

  /** The second deletion of `NoRescan`: `vac` is kept and `cine_BCG` follows. */
  lemma InnerRemoval()
    ensures RemoveAll("vacvaccine_cine_BCG", "vaccine_") == "vaccine_BCG"
  {
    var a, pat, b := "vac", "vaccine_", "cine_BCG";
    var u := a + pat + b;
    assert u == "vacvaccine_cine_BCG";
    Pieces(a, pat, b);
    NoMatchInVac(u, pat);
    RemoveAllAtFirst(u, pat, 3);
    NothingAfter();
    assert RemoveAll(u, pat) == a + b;
    NewOccurrence();
  }

  /** What is left after both deletions spells the pattern again; kept
      apart so that this literal fact is not proved among the others. */
  lemma NewOccurrence()
    ensures "vac" + "cine_BCG" == "vaccine_BCG"
  {
  }

  /** The three parts of a concatenation are its slices. */
  lemma Pieces(a: string, p: string, b: string)
    ensures (a + p + b)[..|a|] == a && (a + p + b)[|a|..|a| + |p|] == p
    ensures (a + p + b)[|a| + |p|..] == b
  {
  }

  /** None of the first three positions of `vacvaccine_cine_BCG` starts a match. */
  lemma NoMatchInVac(u: string, pat: string)
    requires u == "vacvaccine_cine_BCG" && pat == "vaccine_"
    ensures forall j :: 0 <= j < 3 ==> !StartsWith(u[j..], pat)
  {
    forall j | 0 <= j < 3 ensures !StartsWith(u[j..], pat) {
      if j == 0 {
        assert u[j..][..|pat|][3] != pat[3];
      } else {
        assert u[j..][..|pat|][0] != pat[0];
      }
    }
  }

  /** The tail left after the last deletion of `NoRescan` has no match. */
  lemma NothingAfter()
    ensures RemoveAll("cine_BCG", "vaccine_") == "cine_BCG"
  {
    var rest, pat := "cine_BCG", "vaccine_";
    assert rest[..|pat|][0] != pat[0];
    assert rest[1..] == "ine_BCG";
  }

  /** A later occurrence is removed as well, not just the prefix. */
  lemma RemovesEveryOccurrence()
    ensures RemoveAll("vaccine_BCGvaccine_", "vaccine_") == "BCG"
  {
    var pat := "vaccine_";
    var s := "vaccine_BCGvaccine_";
    assert s[..|pat|] == pat;
    assert s[|pat|..] == "BCGvaccine_";
    assert "BCGvaccine_"[..|pat|][0] != pat[0];
    assert "CGvaccine_"[..|pat|][0] != pat[0];
    assert "Gvaccine_"[..|pat|][0] != pat[0];
    assert "vaccine_"[..|pat|] == pat;
    assert "BCGvaccine_"[1..] == "CGvaccine_";
    assert "CGvaccine_"[1..] == "Gvaccine_";
    assert "Gvaccine_"[1..] == "vaccine_";
    assert "vaccine_"[|pat|..] == "";
  }
}
