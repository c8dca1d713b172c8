/**
 * The e-mail check of the create form: the pattern
 *   ^[\w.+\-]+@([\w\-]+\.)+[A-Za-z]{2,}$
 * applied with Python's `re.match` to the stripped input.
 *
 * `Pattern` states the language of that expression directly from its
 * structure; `Accepts` is a hand-written left-to-right recogniser (a finite
 * automaton) and `AcceptsIffPattern` proves the two agree on every string,
 * which `Accepts` itself then promises.
 */
module Email {
  import opened Text

  /** Characters of `[\w.+\-]`, the local part. */
  predicate IsLocalChar(c: char)
  {
    IsWordChar(c) || c == '.' || c == '+' || c == '-'
  }

  /** Characters of `[\w\-]`, one domain label. */
  predicate IsLabelChar(c: char)
  {
    IsWordChar(c) || c == '-'
  }

  predicate AllLetters(s: string)
  {
    forall k :: 0 <= k < |s| ==> IsAsciiLetter(s[k])
  }

  // ---------------------------------------------------------------------
  // The language of the expression, clause by clause

  /** `[\w.+\-]+` */
  ghost predicate LocalPart(l: string)
  {
    |l| >= 1 && forall k :: 0 <= k < |l| ==> IsLocalChar(l[k])
  }

  /** `[\w\-]+` */
  ghost predicate Label(x: string)
  {
    |x| >= 1 && forall k :: 0 <= k < |x| ==> IsLabelChar(x[k])
  }

  /** `[A-Za-z]{2,}` */
  ghost predicate TopLevel(t: string)
  {
    |t| >= 2 && AllLetters(t)
  }

  /** `([\w\-]+\.)+`: a label and a dot, then more of the same or nothing. */
  ghost predicate Labels(x: string)
    decreases |x|, 1
  {
    exists k :: LabelsSplit(x, k)
  }

  /** `x[..k]` is a label, `x[k]` its dot, and `x[k+1..]` is empty or more labels. */
  ghost predicate LabelsSplit(x: string, k: int)
    decreases |x|, 0
  {
    0 < k < |x| && x[k] == '.' && Label(x[..k]) && (k == |x| - 1 || Labels(x[k + 1..]))
  }

  /** `s` is `s[..i]` (local part), `@` at `i`, `s[i+1..j]` (labels), `s[j..]` (top level). */
  ghost predicate SplitAt(s: string, i: int, j: int)
  {
    0 < i < j <= |s| && s[i] == '@' && LocalPart(s[..i]) && Labels(s[i + 1..j]) && TopLevel(s[j..])
  }

  /** The whole expression between `^` and `$`. */
  ghost predicate Pattern(s: string)
  {
    exists i, j :: SplitAt(s, i, j)
  }

  /** What `re.match` accepts: Python's `$` also matches just before a newline
      that ends the string. */
  ghost predicate RegexMatch(s: string)
  {
    Pattern(s) || (|s| > 0 && s[|s| - 1] == '\n' && Pattern(s[..|s| - 1]))
  }

  // ---------------------------------------------------------------------
  // The recogniser

  /** States after reading a prefix. `Segment(n)`: just after a dot of the
      domain, the segment read so far is `n` letters (counted up to 2);
      `MixedSegment`: that segment also holds a digit, `_` or `-`. */
  datatype State = Start | Local | AtSign | FirstLabel | Segment(letters: nat) | MixedSegment | Dead

  function Step(q: State, c: char): State
  {
    match q
    case Start => if IsLocalChar(c) then Local else Dead
    case Local => if IsLocalChar(c) then Local else if c == '@' then AtSign else Dead
    case AtSign => if IsLabelChar(c) then FirstLabel else Dead
    case FirstLabel => if IsLabelChar(c) then FirstLabel else if c == '.' then Segment(0) else Dead
    case Segment(n) =>
      if IsAsciiLetter(c) then Segment(if n < 2 then n + 1 else 2)
      else if IsLabelChar(c) then MixedSegment
      else if c == '.' && n > 0 then Segment(0)
      else Dead
    case MixedSegment => if IsLabelChar(c) then MixedSegment else if c == '.' then Segment(0) else Dead
    case Dead => Dead
  }

  function Run(q: State, s: string): State
    decreases |s|
  {
    if s == [] then q else Run(Step(q, s[0]), s[1..])
  }

  /** The recogniser: the whole string read from `Start` ends in a letters-only
      segment of at least two letters. It decides exactly the language of the
      expression. */
  function Accepts(s: string): (b: bool)
    ensures b <==> Pattern(s)
  {
    AcceptsIffPattern(s);
    Run(Start, s) == Segment(2)
  }

  /** The form's e-mail check on raw input (`EMAIL_RE.match(email.strip())`).
      On stripped text Python's `$`-before-newline rule never applies, so the
      check is exactly `re.match` on the stripped text. */
  function IsValidEmail(raw: string): (b: bool)
    ensures b <==> RegexMatch(Trim(raw))
  {
    var s := Trim(raw);
    assert s != [] ==> s[|s| - 1] != '\n';
    Accepts(s)
  }

  // ---------------------------------------------------------------------
  // Soundness: what each state says about the prefix that reached it

  /** `w[..i]` is a local part and `w[i]` is the `@`. */
  ghost predicate HeadAt(w: string, i: int)
  {
    0 < i < |w| && w[i] == '@' && LocalPart(w[..i])
  }

  /** After the `@` at `i`, `w[i+1..j]` are complete labels and `w[j..]` is a
      run of label characters. */
  ghost predicate SegmentAt(w: string, i: int, j: int)
  {
    HeadAt(w, i) && i < j <= |w| && Labels(w[i + 1..j]) && forall k :: j <= k < |w| ==> IsLabelChar(w[k])
  }

  function Min2(n: int): int
  {
    if n < 2 then n else 2
  }

  ghost predicate Inv(q: State, w: string)
  {
    match q
    case Start => w == []
    case Local => LocalPart(w)
    case AtSign => HeadAt(w, |w| - 1)
    case FirstLabel => exists i :: HeadAt(w, i) && Label(w[i + 1..])
    case Segment(n) => exists i, j :: SegmentAt(w, i, j) && AllLetters(w[j..]) && n == Min2(|w| - j)
    case MixedSegment => exists i, j :: SegmentAt(w, i, j) && j < |w|
    case Dead => true
  }

  /** A label and a dot is a one-label `Labels`. */
  lemma LabelsOne(x: string)
    requires Label(x)
    ensures Labels(x + ['.'])
  {
    var y := x + ['.'];
    assert y[..|x|] == x;
    assert LabelsSplit(y, |x|);
  }

  /** `([\w\-]+\.)+` followed by one more label and dot is still `([\w\-]+\.)+`. */
  lemma {:induction false} LabelsExtend(p: string, t: string)
    requires Labels(p) && Label(t)
    ensures Labels(p + t + ['.'])
    decreases |p|
  {
    var k :| LabelsSplit(p, k);
    var y := p + t + ['.'];
    assert y[..k] == p[..k];
    if k == |p| - 1 {
      assert y[k + 1..] == t + ['.'];
      LabelsOne(t);
    } else {
      LabelsExtend(p[k + 1..], t);
      assert y[k + 1..] == p[k + 1..] + t + ['.'];
    }
    assert LabelsSplit(y, k);
  }

  /** Closing a segment with a dot adds it to the complete labels. */
  lemma CloseSegment(w: string, i: int, j: int)
    requires SegmentAt(w, i, j) && j < |w|
    ensures SegmentAt(w + ['.'], i, |w| + 1)
  {
    var w' := w + ['.'];
    assert w'[..i] == w[..i];
    assert Label(w[j..]);
    LabelsExtend(w[i + 1..j], w[j..]);
    assert w'[i + 1..|w'|] == w[i + 1..j] + w[j..] + ['.'];
  }

  /** Reading a label character inside a segment keeps it a segment. */
  lemma ExtendSegment(w: string, i: int, j: int, c: char)
    requires SegmentAt(w, i, j) && IsLabelChar(c)
    ensures SegmentAt(w + [c], i, j) && (w + [c])[j..] == w[j..] + [c]
  {
    var w' := w + [c];
    assert w'[..i] == w[..i] && w'[i + 1..j] == w[i + 1..j];
  }

  lemma StepInvFirstLabel(w: string, c: char)
    requires Inv(FirstLabel, w)
    ensures Inv(Step(FirstLabel, c), w + [c])
  {
    var w' := w + [c];
    var i :| HeadAt(w, i) && Label(w[i + 1..]);
    assert w'[..i] == w[..i];
    assert HeadAt(w', i);
    if IsLabelChar(c) {
      assert w'[i + 1..] == w[i + 1..] + [c];
    } else if c == '.' {
      assert w'[i + 1..|w'|] == w[i + 1..] + ['.'];
      LabelsOne(w[i + 1..]);
      assert SegmentAt(w', i, |w'|) && AllLetters(w'[|w'|..]);
    }
  }

  lemma StepInvSegment(n: nat, w: string, c: char)
    requires Inv(Segment(n), w)
    ensures Inv(Step(Segment(n), c), w + [c])
  {
    var w' := w + [c];
    var i, j :| SegmentAt(w, i, j) && AllLetters(w[j..]) && n == Min2(|w| - j);
    if IsLabelChar(c) {
      ExtendSegment(w, i, j, c);
      assert j < |w'|;
    } else if c == '.' && n > 0 {
      CloseSegment(w, i, j);
      assert AllLetters(w'[|w'|..]);
    }
  }

  lemma StepInvMixed(w: string, c: char)
    requires Inv(MixedSegment, w)
    ensures Inv(Step(MixedSegment, c), w + [c])
  {
    var w' := w + [c];
    var i, j :| SegmentAt(w, i, j) && j < |w|;
    if IsLabelChar(c) {
      ExtendSegment(w, i, j, c);
    } else if c == '.' {
      CloseSegment(w, i, j);
      assert AllLetters(w'[|w'|..]);
    }
  }

  lemma StepInvAtSign(w: string, c: char)
    requires Inv(AtSign, w)
    ensures Inv(Step(AtSign, c), w + [c])
  {
    var w' := w + [c];
    if IsLabelChar(c) {
      assert w'[..|w| - 1] == w[..|w| - 1];
      assert HeadAt(w', |w| - 1) && w'[|w|..] == [c];
    }
  }

  lemma StepInvStart(w: string, c: char)
    requires Inv(Start, w)
    ensures Inv(Step(Start, c), w + [c])
  {
  }

  lemma StepInvLocal(w: string, c: char)
    requires Inv(Local, w)
    ensures Inv(Step(Local, c), w + [c])
  {
    assert (w + [c])[..|w|] == w;
  }

  /** Reading one character keeps `Inv`. */
  lemma StepInv(q: State, w: string, c: char)
    requires Inv(q, w)
    ensures Inv(Step(q, c), w + [c])
  {
    match q
    case Start => StepInvStart(w, c);
    case Local => StepInvLocal(w, c);
    case AtSign => StepInvAtSign(w, c);
    case FirstLabel => StepInvFirstLabel(w, c);
    case Segment(n) => StepInvSegment(n, w, c);
    case MixedSegment => StepInvMixed(w, c);
    case Dead =>
  }

  lemma {:induction false} RunInv(q: State, w: string, v: string)
    requires Inv(q, w)
    ensures Inv(Run(q, v), w + v)
    decreases |v|
  {
    if v != [] {
      var w' := w + [v[0]];
      assert w' + v[1..] == w + v;
      StepInv(q, w, v[0]);
      RunInv(Step(q, v[0]), w', v[1..]);
    } else {
      assert w + v == w;
    }
  }

  /** Everything the recogniser accepts fits the expression. */
  lemma AcceptsSound(s: string)
    requires Run(Start, s) == Segment(2)
    ensures Pattern(s)
  {
    RunInv(Start, [], s);
    assert [] + s == s;
    var i, j :| SegmentAt(s, i, j) && AllLetters(s[j..]) && 2 == Min2(|s| - j);
    assert HeadAt(s, i) && Labels(s[i + 1..j]);
    assert TopLevel(s[j..]);
    assert SplitAt(s, i, j);
  }

  // ---------------------------------------------------------------------
  // Completeness: the recogniser accepts everything the expression does

  lemma {:induction false} RunAppend(q: State, a: string, b: string)
    ensures Run(q, a + b) == Run(Run(q, a), b)
    decreases |a|
  {
    if a != [] {
      assert (a + b)[0] == a[0] && (a + b)[1..] == a[1..] + b;
      RunAppend(Step(q, a[0]), a[1..], b);
    } else {
      assert a + b == b;
    }
  }

  lemma {:induction false} RunLocalChars(l: string)
    requires forall k :: 0 <= k < |l| ==> IsLocalChar(l[k])
    ensures Run(Local, l) == Local
    decreases |l|
  {
    if l != [] {
      RunLocalChars(l[1..]);
    }
  }

  lemma {:induction false} RunLabelChars(x: string)
    requires forall k :: 0 <= k < |x| ==> IsLabelChar(x[k])
    ensures Run(FirstLabel, x) == FirstLabel
    decreases |x|
  {
    if x != [] {
      RunLabelChars(x[1..]);
    }
  }

  /** Label characters read inside a domain segment keep it a segment; once
      the segment is non-empty it stays so. */
  lemma {:induction false} RunSegmentChars(q: State, x: string)
    requires (q.Segment? && q.letters <= 2) || q.MixedSegment?
    requires forall k :: 0 <= k < |x| ==> IsLabelChar(x[k])
    ensures var r := Run(q, x); (r.Segment? && r.letters <= 2) || r.MixedSegment?
    ensures (x != [] || q != Segment(0)) ==> Run(q, x) != Segment(0)
    decreases |x|
  {
    if x != [] {
      RunSegmentChars(Step(q, x[0]), x[1..]);
    }
  }

  /** Letters read in a letters-only segment are counted (up to 2). */
  lemma {:induction false} RunLetters(n: nat, t: string)
    requires n <= 2 && AllLetters(t)
    ensures Run(Segment(n), t) == Segment(Min2(n + |t|))
    decreases |t|
  {
    if t != [] {
      RunLetters(Min2(n + 1), t[1..]);
    }
  }

  /** Any complete labels after a dot lead back to the start of a segment. */
  lemma {:induction false} RunLabelsFromSegment(p: string)
    requires Labels(p)
    ensures Run(Segment(0), p) == Segment(0)
    decreases |p|
  {
    var k :| LabelsSplit(p, k);
    assert p == p[..k] + ([p[k]] + p[k + 1..]);
    RunAppend(Segment(0), p[..k], [p[k]] + p[k + 1..]);
    RunSegmentChars(Segment(0), p[..k]);
    if k < |p| - 1 {
      RunLabelsFromSegment(p[k + 1..]);
    }
  }

  /** The labels right after the `@` lead to the start of a segment. */
  lemma LabelsAfterAt(p: string)
    requires Labels(p)
    ensures Run(AtSign, p) == Segment(0)
  {
    var k :| LabelsSplit(p, k);
    assert p == p[..k] + ([p[k]] + p[k + 1..]);
    RunAppend(AtSign, p[..k], [p[k]] + p[k + 1..]);
    RunLabelChars(p[..k][1..]);
    if k < |p| - 1 {
      RunLabelsFromSegment(p[k + 1..]);
    }
  }

  /** A local part and the `@` lead to `AtSign`, whatever follows. */
  lemma RunThroughAt(local: string, rest: string)
    requires LocalPart(local)
    ensures Run(Start, local + (['@'] + rest)) == Run(AtSign, rest)
  {
    RunAppend(Start, local, ['@'] + rest);
    RunLocalChars(local[1..]);
    assert Run(Start, local) == Local;
  }

  /** Everything that fits the expression is accepted. */
  lemma AcceptsComplete(s: string)
    requires Pattern(s)
    ensures Run(Start, s) == Segment(2)
  {
    var i, j :| SplitAt(s, i, j);
    var labels, top := s[i + 1..j], s[j..];
    assert s == s[..i] + ([s[i]] + (labels + top));
    RunThroughAt(s[..i], labels + top);
    RunAppend(AtSign, labels, top);
    LabelsAfterAt(labels);
    RunLetters(0, top);
  }

  /** The run of the recogniser decides exactly the language of the expression. */
  lemma AcceptsIffPattern(s: string)
    ensures Run(Start, s) == Segment(2) <==> Pattern(s)
  {
    if Run(Start, s) == Segment(2) { AcceptsSound(s); }
    if Pattern(s) { AcceptsComplete(s); }
  }

  // ---------------------------------------------------------------------
  // Consequences

  lemma {:induction false} LabelsShape(x: string)
    requires Labels(x)
    ensures |x| >= 2 && x[|x| - 1] == '.'
    ensures forall k :: 0 <= k < |x| ==> x[k] != '@'
    decreases |x|
  {
    var k :| LabelsSplit(x, k);
    if k < |x| - 1 {
      LabelsShape(x[k + 1..]);
      forall m | k < m < |x| ensures x[m] != '@' {
        assert x[m] == x[k + 1..][m - k - 1];
      }
    }
    forall m | 0 <= m < k ensures x[m] != '@' {
      assert x[m] == x[..k][m];
    }
  }

  /** An accepted address has exactly one `@`, ends in a letter, and is at
      least six characters long (`a@b.cd`). */
  lemma AcceptedShape(s: string)
    requires Accepts(s)
    ensures exists i :: 0 <= i < |s| && s[i] == '@' && forall k :: 0 <= k < |s| && s[k] == '@' ==> k == i
    ensures |s| >= 6 && IsAsciiLetter(s[|s| - 1])
  {
    var i, j :| SplitAt(s, i, j);
    LabelsShape(s[i + 1..j]);
    forall k | 0 <= k < |s| && s[k] == '@' ensures k == i {
    }
    assert s[j..][|s| - j - 1] == s[|s| - 1];
  }
}
