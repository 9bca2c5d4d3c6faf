/** How the reconciler cleans and shortens what it reads before sending or comparing it. */
module ReconcileText {
  import opened Text

  const PLACEHOLDERS := {"", "-", "—", "none", "None", "n/a", "N/A"}

  /** `s.replace("\\|", "|")`. */
  function UnescapePipes(s: string): string {
    if |s| < 2 then s
    else if s[0] == '\\' && s[1] == '|' then "|" + UnescapePipes(s[2..])
    else [s[0]] + UnescapePipes(s[1..])
  }

  /** A cell or field value; every way of writing nothing is the empty string. */
  function CleanValue(value: string): string {
    var v := UnescapePipes(Strip(value));
    if v in PLACEHOLDERS then "" else v
  }

  /** At most `limit` characters, the last one an ellipsis when something was cut. */
  function Truncate(value: string, limit: nat): string
    requires limit >= 1
  {
    if |value| <= limit then value else RStrip(value[..limit - 1]) + "…"
  }

  lemma StripTrims(s: string)
    ensures Trimmed(Strip(s))
  {
    LStripShrinks(s);
  }

  lemma TrimmedStays(s: string)
    requires Trimmed(s)
    ensures Strip(s) == s
  {}

  lemma {:induction false} UnescapeTrimmed(s: string)
    requires s != ""
    ensures UnescapePipes(s) != ""
    ensures IsSpace(UnescapePipes(s)[0]) == IsSpace(s[0])
    ensures !IsSpace(s[|s| - 1]) ==> !IsSpace(UnescapePipes(s)[|UnescapePipes(s)| - 1])
  {
    if |s| >= 2 {
      if s[0] == '\\' && s[1] == '|' {
        if |s| > 2 {
          UnescapeTrimmed(s[2..]);
        }
      } else {
        UnescapeTrimmed(s[1..]);
      }
    }
  }

  /** Six texts, and nothing at all, stand for nothing; any other value is kept as it reads. */
  lemma NothingIsWritten(value: string)
    ensures var v := UnescapePipes(Strip(value));
            if v in ["", "-", "—", "none", "None", "n/a", "N/A"] then CleanValue(value) == "" else CleanValue(value) == v != ""
  {
    hide UnescapePipes, Strip;
  }

  lemma CleanIsTrimmed(value: string)
    ensures Trimmed(CleanValue(value))
  {
    hide UnescapePipes;
    StripTrims(value);
    if Strip(value) != "" {
      UnescapeTrimmed(Strip(value));
    } else {
      NothingToUnescape();
    }
  }

  lemma NothingToUnescape()
    ensures UnescapePipes("") == ""
  {}

  lemma TruncateShape(value: string, limit: nat)
    requires limit >= 1 && Trimmed(value)
    ensures |Truncate(value, limit)| <= limit
    ensures Trimmed(Truncate(value, limit))
  {
    if |value| > limit {
      var kept := RStrip(value[..limit - 1]);
      assert kept <= value[..limit - 1];
      assert kept != "" ==> kept[0] == value[0];
      assert !IsSpace('…');
    }
  }

  /**
   * A value that was cleaned and shortened has no white space at its ends, so a service that
   * trims what it is sent stores it unchanged, and shortening it again changes nothing.
   */
  lemma SentValuesAreKept(value: string, limit: nat)
    requires limit >= 1
    ensures var sent := Truncate(CleanValue(value), limit);
            |sent| <= limit && Strip(sent) == sent && Truncate(sent, limit) == sent
  {
    hide CleanValue, Truncate;
    CleanIsTrimmed(value);
    TruncateShape(CleanValue(value), limit);
    var sent := Truncate(CleanValue(value), limit);
    TrimmedStays(sent);
    ShortStays(sent, limit);
  }

  lemma ShortStays(s: string, limit: nat)
    requires limit >= 1 && |s| <= limit
    ensures Truncate(s, limit) == s
  {}

  /** Text that continues after white space keeps the shortened value only when the cut hides it. */
  lemma TruncateExtended(v: string, more: string, limit: nat)
    requires limit >= 2 && v != "" && !IsSpace(v[|v| - 1]) && more != ""
    ensures Truncate(v + more, limit) == Truncate(v, limit) <==>
              |v| > limit || (|v| == limit && v[limit - 1] == '…' && !IsSpace(v[limit - 2]))
  {
    var w := v + more;
    if |v| > limit {
      assert w[..limit - 1] == v[..limit - 1];
    } else if |v| == limit {
      assert w[..limit - 1] == v[..limit - 1];
      var cut := v[..limit - 1];
      assert v == cut + [v[limit - 1]];
      RStripLength(cut);
    } else if |w| > limit {
      assert w[..limit - 1] == v + w[|v|..limit - 1];
      RStripAtLeast(v, w[|v|..limit - 1]);
    }
  }

  lemma RStripLength(s: string)
    requires s != ""
    ensures RStrip(s) == s <==> !IsSpace(s[|s| - 1])
  {}

  lemma {:induction false} RStripAtLeast(v: string, t: string)
    requires v != "" && !IsSpace(v[|v| - 1])
    ensures |RStrip(v + t)| >= |v|
    decreases |t|
  {
    if t == "" {
      assert v + t == v;
    } else {
      assert (v + t)[..|v + t| - 1] == v + t[..|t| - 1];
      RStripAtLeast(v, t[..|t| - 1]);
    }
  }

  // ------------------------------------------------------------------
  // Texts that are shortened to the same
  // ------------------------------------------------------------------

  /** The first k characters agree up to a place from which both hold only white space. */
  predicate AgreeVisibly(t: string, u: string, k: nat)
    requires k <= |t| && k <= |u|
  {
    exists d :: 0 <= d <= k && t[..d] == u[..d] && AllSpace(t[d..k]) && AllSpace(u[d..k])
  }

  /** A short text that is the start of a long one up to white space, with an ellipsis of its own. */
  predicate LooksCut(short: string, long: string, k: nat)
    requires k <= |long|
  {
    var n := |short| - 1;
    && 0 <= n <= k && short[n] == '…' && short[..n] == long[..n] && AllSpace(long[n..k])
    && (n > 0 ==> !IsSpace(short[n - 1]))
  }

  /** The difference of two texts does not show: it lies behind the cut, or a text ends as if it were cut. */
  predicate HiddenByCut(t: string, u: string, limit: nat)
    requires limit >= 1
  {
    if |t| > limit && |u| > limit then AgreeVisibly(t, u, limit - 1)
    else if |t| > limit then LooksCut(u, t, limit - 1)
    else |u| > limit && LooksCut(t, u, limit - 1)
  }

  /** Two texts are shortened to the same exactly when they are equal or the cut hides the difference. */
  lemma TruncateSameIff(t: string, u: string, limit: nat)
    requires limit >= 1
    ensures Truncate(t, limit) == Truncate(u, limit) <==> t == u || HiddenByCut(t, u, limit)
  {
    hide RStrip, AgreeVisibly, LooksCut;
    if |t| > limit && |u| > limit {
      CutsAgreeIff(t, u, limit - 1);
      EllipsisLast(RStrip(t[..limit - 1]), RStrip(u[..limit - 1]));
      SameAgrees(t, limit - 1);
    } else if |t| > limit {
      LooksCutIff(u, t, limit - 1);
    } else if |u| > limit {
      LooksCutIff(t, u, limit - 1);
    }
  }

  lemma EllipsisLast(a: string, b: string)
    ensures a + "…" == b + "…" <==> a == b
  {
    assert (a + "…")[..|a|] == a && (b + "…")[..|b|] == b;
    assert |a + "…"| == |a| + 1 && |b + "…"| == |b| + 1;
  }

  lemma SameAgrees(t: string, k: nat)
    requires k <= |t|
    ensures AgreeVisibly(t, t, k)
  {
    assert t[..k] == t[..k] && t[k..k] == "";
  }

  lemma CutsAgreeIff(t: string, u: string, k: nat)
    requires k <= |t| && k <= |u|
    ensures RStrip(t[..k]) == RStrip(u[..k]) <==> AgreeVisibly(t, u, k)
  {
    hide RStrip;
    if RStrip(t[..k]) == RStrip(u[..k]) {
      var d := |RStrip(t[..k])|;
      assert t[..d] == t[..k][..d] && u[..d] == u[..k][..d];
      assert t[d..k] == t[..k][d..] && u[d..k] == u[..k][d..];
    }
    if d :| 0 <= d <= k && t[..d] == u[..d] && AllSpace(t[d..k]) && AllSpace(u[d..k]) {
      assert t[..k] == t[..d] + t[d..k] && u[..k] == u[..d] + u[d..k];
      RStripAppend(t[..d], t[d..k]);
      RStripAppend(u[..d], u[d..k]);
    }
  }

  lemma LooksCutIff(short: string, long: string, k: nat)
    requires k <= |long|
    ensures short == RStrip(long[..k]) + "…" <==> LooksCut(short, long, k)
  {
    hide RStrip, LooksCut;
    if short == RStrip(long[..k]) + "…" {
      CutLooksCut(long, k);
    }
    if LooksCut(short, long, k) {
      LooksCutIsCut(short, long, k);
    }
  }

  lemma CutLooksCut(long: string, k: nat)
    requires k <= |long|
    ensures LooksCut(RStrip(long[..k]) + "…", long, k)
  {
    hide RStrip;
    var r := RStrip(long[..k]);
    assert long[..k][|r|..] == long[|r|..k] && long[..k][..|r|] == long[..|r|];
    assert (r + "…")[..|r|] == r;
  }

  lemma LooksCutIsCut(short: string, long: string, k: nat)
    requires k <= |long| && LooksCut(short, long, k)
    ensures short == RStrip(long[..k]) + "…"
  {
    hide RStrip;
    var n := |short| - 1;
    assert long[..k] == long[..n] + long[n..k];
    RStripUnique(long[..n], long[n..k]);
    assert short == short[..n] + [short[n]];
  }
}
