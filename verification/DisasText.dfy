/** append and the padding loops of decode_inst_format, on the text before the terminator. */
module DisasText {
  /** append(s1, s2, n): strncat copies at most n - |s1| characters when more than one place is left. */
  function Append(s1: string, s2: string, n: nat): string {
    if n - |s1| - 1 > 0 then s1 + (if |s2| <= n - |s1| then s2 else s2[..n - |s1|]) else s1
  }

  /** A text that leaves room for its terminator keeps doing so exactly when append either does nothing or is given
      fewer characters than there are places left. */
  lemma AppendLeavesRoom(s1: string, s2: string, n: nat)
    requires |s1| < n
    ensures |Append(s1, s2, n)| < n <==> |s1| == n - 1 || |s2| < n - |s1|
  {
  }

  /** What is there stays, and what is added is a beginning of the second text: all of it when it fits. */
  lemma AppendExtends(s1: string, s2: string, n: nat)
    ensures s1 <= Append(s1, s2, n) && Append(s1, s2, n) <= s1 + s2
    ensures |s1| < n && |s1| + |s2| < n && |s1| != n - 1 ==> Append(s1, s2, n) == s1 + s2
  {
  }

  // ----- padding to a column

  function Spaces(k: nat): string { seq(k, _ => ' ') }

  /** The text after k turns of the padding loop. */
  function Padded(text: string, tab: nat, n: nat, k: nat): string {
    if k == 0 then text
    else
      var before := Padded(text, tab, n, k - 1);
      if |before| < tab then Append(before, " ", n) else before
  }

  lemma {:induction false} PaddedLength(text: string, tab: nat, n: nat, k: nat)
    requires |text| < n
    ensures |Padded(text, tab, n, k)| == if |text| >= tab then |text|
                                         else if |text| + k <= tab && |text| + k < n then |text| + k
                                         else if tab < n then tab else n - 1
  {
    if k > 0 {
      PaddedLength(text, tab, n, k - 1);
    }
  }

  /** The padding loop ends exactly when the text is already long enough or the buffer can hold that many characters. */
  lemma PaddingEndsIffItFits(text: string, tab: nat, n: nat)
    requires |text| < n
    ensures (exists k: nat :: |Padded(text, tab, n, k)| >= tab) <==> |text| >= tab || tab < n
  {
    if |text| >= tab || tab < n {
      var k := if |text| >= tab then 0 else tab - |text|;
      PaddedLength(text, tab, n, k);
      assert |Padded(text, tab, n, k)| >= tab;
    } else {
      forall k: nat
        ensures |Padded(text, tab, n, k)| < tab
      {
        PaddedLength(text, tab, n, k);
      }
    }
  }

  /** while (strlen(buf) < tab) append(buf, " ", n), where it ends. */
  method Pad(text: string, tab: nat, n: nat) returns (buf: string)
    requires |text| < n && (|text| >= tab || tab < n)
    ensures buf == text + Spaces(if |text| >= tab then 0 else tab - |text|)
  {
    buf := text;
    while |buf| < tab
      invariant |text| <= |buf| < n && buf == text + Spaces(|buf| - |text|)
      invariant |buf| <= tab || buf == text
      decreases tab - |buf|
    {
      buf := Append(buf, " ", n);
    }
  }
}
