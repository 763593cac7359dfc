/** Anchored text replacement that recognises its own result, on LF and CRLF trees. */
module GraftText {

  datatype Status = Applied | AlreadyPresent | MissingAnchor

  datatype Replaced = Replaced(text: string, status: Status)

  predicate OccursAt(t: string, p: string, i: nat) { i + |p| <= |t| && t[i..i + |p|] == p }

  /** p in t */
  predicate Contains(t: string, p: string) { exists i :: 0 <= i <= |t| && OccursAt(t, p, i) }

  /** Where p first occurs, from i on. */
  function FirstFrom(t: string, p: string, i: nat): (r: nat)
    requires exists j :: i <= j <= |t| && OccursAt(t, p, j)
    ensures i <= r <= |t| && OccursAt(t, p, r) && forall j :: i <= j < r ==> !OccursAt(t, p, j)
    decreases |t| - i
  {
    if OccursAt(t, p, i) then i else FirstFrom(t, p, i + 1)
  }

  /** t.replace(old, new, 1) */
  function ReplaceFirst(t: string, old_: string, new_: string): string
    requires Contains(t, old_)
  {
    var i := FirstFrom(t, old_, 0);
    t[..i] + new_ + t[i + |old_|..]
  }

  /** s.replace("\r\n", "\n") */
  function ToLf(s: string): string {
    if s == "" then ""
    else if |s| > 1 && s[0] == '\r' && s[1] == '\n' then "\n" + ToLf(s[2..])
    else [s[0]] + ToLf(s[1..])
  }

  /** s.replace("\n", "\r\n") */
  function ToCrlf(s: string): string {
    if s == "" then "" else (if s[0] == '\n' then "\r\n" else [s[0]]) + ToCrlf(s[1..])
  }

  predicate Present(t: string, new_: string) { Contains(t, ToLf(new_)) || Contains(t, ToCrlf(ToLf(new_))) }

  /** replace_once() */
  function ReplaceOnce(t: string, old_: string, new_: string): Replaced {
    var lf := ToLf(new_);
    if Present(t, new_) then Replaced(t, AlreadyPresent)
    else if Contains(t, ToLf(old_)) then Replaced(ReplaceFirst(t, ToLf(old_), lf), Applied)
    else if Contains(t, ToCrlf(ToLf(old_))) then Replaced(ReplaceFirst(t, ToCrlf(ToLf(old_)), ToCrlf(lf)), Applied)
    else Replaced(t, MissingAnchor)
  }

  lemma ReplacementIsThere(t: string, old_: string, new_: string)
    requires Contains(t, old_)
    ensures Contains(ReplaceFirst(t, old_, new_), new_)
  {
    var i := FirstFrom(t, old_, 0);
    var r := ReplaceFirst(t, old_, new_);
    assert r[i..i + |new_|] == new_;
    assert OccursAt(r, new_, i);
  }

  /**
   A replacement reports Applied exactly when it changes the text, and what it applied it finds
   present the next time: a second pass changes nothing.
   */
  lemma ReplaceOnceSettles(t: string, old_: string, new_: string)
    ensures
      var r := ReplaceOnce(t, old_, new_);
      && (r.status == Applied <==> r.text != t)
      && (r.status != MissingAnchor ==> ReplaceOnce(r.text, old_, new_) == Replaced(r.text, AlreadyPresent))
      && (r.status == MissingAnchor ==> ReplaceOnce(r.text, old_, new_) == r)
  {
    var r := ReplaceOnce(t, old_, new_);
    if r.status == Applied {
      if Contains(t, ToLf(old_)) {
        ReplacementIsThere(t, ToLf(old_), ToLf(new_));
      } else {
        ReplacementIsThere(t, ToCrlf(ToLf(old_)), ToCrlf(ToLf(new_)));
      }
    }
  }

  // ---- what a replacement is, spelled out on the text ----

  /** An occurrence at i, letter by letter, and as a way to split the text. */
  lemma OccursIs(t: string, p: string, i: nat)
    ensures OccursAt(t, p, i) <==> i + |p| <= |t| && forall k :: 0 <= k < |p| ==> t[i + k] == p[k]
    ensures OccursAt(t, p, i) ==> t == t[..i] + p + t[i + |p|..]
  {
    if i + |p| <= |t| && forall k :: 0 <= k < |p| ==> t[i + k] == p[k] {
      assert t[i..i + |p|] == p;
    }
    if OccursAt(t, p, i) {
      forall k | 0 <= k < |p| ensures t[i + k] == p[k] {
        assert t[i..i + |p|][k] == t[i + k];
      }
    }
  }

  /** a is everything before the first occurrence of p in a + p + b. */
  ghost predicate FirstAfter(a: string, p: string, b: string) {
    forall i :: 0 <= i < |a| ==> !OccursAt(a + p + b, p, i)
  }

  lemma FirstIs(a: string, p: string, b: string)
    requires FirstAfter(a, p, b)
    ensures Contains(a + p + b, p) && FirstFrom(a + p + b, p, 0) == |a|
  {
    var t := a + p + b;
    assert t[|a|..|a| + |p|] == p;
    assert OccursAt(t, p, |a|);
  }

  /**
   Where the old block occurs with LF line ends, its first occurrence gives way to the new block
   with LF line ends; everything before and behind it stays.
   */
  lemma ReplacedInLf(a: string, b: string, old_: string, new_: string)
    requires FirstAfter(a, ToLf(old_), b)
    requires !Contains(a + ToLf(old_) + b, ToLf(new_)) && !Contains(a + ToLf(old_) + b, ToCrlf(ToLf(new_)))
    ensures ReplaceOnce(a + ToLf(old_) + b, old_, new_) == Replaced(a + ToLf(new_) + b, Applied)
  {
    var p := ToLf(old_);
    var t := a + p + b;
    FirstIs(a, p, b);
    assert t[..|a|] == a && t[|a| + |p|..] == b;
  }

  /** Where it occurs with CRLF line ends only, the same with both blocks in CRLF. */
  lemma ReplacedInCrlf(a: string, b: string, old_: string, new_: string)
    requires FirstAfter(a, ToCrlf(ToLf(old_)), b) && !Contains(a + ToCrlf(ToLf(old_)) + b, ToLf(old_))
    requires !Contains(a + ToCrlf(ToLf(old_)) + b, ToLf(new_))
    requires !Contains(a + ToCrlf(ToLf(old_)) + b, ToCrlf(ToLf(new_)))
    ensures ReplaceOnce(a + ToCrlf(ToLf(old_)) + b, old_, new_) == Replaced(a + ToCrlf(ToLf(new_)) + b, Applied)
  {
    var p := ToCrlf(ToLf(old_));
    var t := a + p + b;
    FirstIs(a, p, b);
    assert t[..|a|] == a && t[|a| + |p|..] == b;
  }

  /**
   Line ends are chosen by the anchor, not by the file: an anchor of one line has only one form, so
   in a CRLF text its replacement comes with bare line feeds.
   */
  lemma OneLineAnchorMixesEnds()
    ensures ReplaceOnce("a\r\n", "a", "x\ny") == Replaced("x\ny\r\n", Applied)
  {
    var p, n, b := "a", "x\ny", "\r\n";
    LfOfLf(p);
    LfOfLf(n);
    assert "" + p + b == "a\r\n" && "" + n + b == "x\ny\r\n";
    forall i | 0 <= i <= |p + b| ensures !OccursAt(p + b, n, i) && !OccursAt(p + b, ToCrlf(n), i) {
      FirstLetter(p + b, n, i);
      FirstLetter(p + b, ToCrlf(n), i);
    }
    ReplacedInLf("", b, p, n);
  }

  lemma FirstLetter(t: string, p: string, i: nat)
    requires p != "" && (i + |p| <= |t| ==> t[i] != p[0])
    ensures !OccursAt(t, p, i)
  {
    assert i + |p| <= |t| ==> t[i..i + |p|][0] == t[i];
  }

  /** Blocks given with CRLF line ends make the same step as those given with LF. */
  lemma EitherLineEnd(t: string, old_: string, new_: string)
    requires NoCrlf(old_) && NoCrlf(new_)
    ensures ReplaceOnce(t, ToCrlf(old_), ToCrlf(new_)) == ReplaceOnce(t, old_, new_)
  {
    CrlfRoundTrip(old_);
    CrlfRoundTrip(new_);
    LfOfLf(old_);
    LfOfLf(new_);
  }

  /** No anchor in either form, no result in either form: nothing happens and that is reported. */
  lemma ReportsWhatItFinds(t: string, old_: string, new_: string)
    ensures
      var o, n, r := ToLf(old_), ToLf(new_), ReplaceOnce(t, old_, new_);
      && (r.status == AlreadyPresent <==> Contains(t, n) || Contains(t, ToCrlf(n)))
      && (r.status == MissingAnchor <==>
            !Contains(t, n) && !Contains(t, ToCrlf(n)) && !Contains(t, o) && !Contains(t, ToCrlf(o)))
      && (r.status != Applied ==> r.text == t)
  {
  }

  // ---- line ends ----

  /** A line end of two characters. */
  ghost predicate NoCrlf(s: string) { forall i :: 0 <= i < |s| - 1 ==> !(s[i] == '\r' && s[i + 1] == '\n') }

  lemma {:induction false} LfOfLf(s: string)
    requires NoCrlf(s)
    ensures ToLf(s) == s
  {
    if s != "" {
      assert NoCrlf(s[1..]) by {
        forall i | 0 <= i < |s[1..]| - 1 ensures !(s[1..][i] == '\r' && s[1..][i + 1] == '\n') {
          assert s[1..][i] == s[i + 1] && s[1..][i + 1] == s[i + 2];
        }
      }
      LfOfLf(s[1..]);
      assert !(s[0] == '\r' && |s| > 1 && s[1] == '\n');
    }
  }

  /** From LF to CRLF and back: nothing is lost. */
  lemma {:induction false} CrlfRoundTrip(s: string)
    requires NoCrlf(s)
    ensures ToLf(ToCrlf(s)) == s
  {
    if s != "" {
      var c := ToCrlf(s);
      assert NoCrlf(s[1..]) by {
        forall i | 0 <= i < |s[1..]| - 1 ensures !(s[1..][i] == '\r' && s[1..][i + 1] == '\n') {
          assert s[1..][i] == s[i + 1] && s[1..][i + 1] == s[i + 2];
        }
      }
      CrlfRoundTrip(s[1..]);
      if s[0] == '\n' {
        assert c[2..] == ToCrlf(s[1..]);
      } else {
        assert c[1..] == ToCrlf(s[1..]);
        if s[0] == '\r' && |c| > 1 && c[1] == '\n' {
          FirstOfCrlf(s[1..]);
        }
      }
    }
  }

  /** In CRLF text every line feed has its carriage return. */
  lemma FirstOfCrlf(s: string)
    ensures ToCrlf(s) != "" ==> ToCrlf(s)[0] != '\n'
  {
  }

  lemma {:induction false} EveryLineEndIsCrlf(s: string, i: nat)
    requires i < |ToCrlf(s)| && ToCrlf(s)[i] == '\n'
    ensures i > 0 && ToCrlf(s)[i - 1] == '\r'
  {
    var c := ToCrlf(s);
    FirstOfCrlf(s);
    var n := if s[0] == '\n' then 2 else 1;
    assert c[n..] == ToCrlf(s[1..]);
    if i >= n {
      FirstOfCrlf(s[1..]);
      EveryLineEndIsCrlf(s[1..], i - n);
    }
  }
}
