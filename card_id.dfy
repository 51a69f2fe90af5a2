/** The card-id slug rule of `generate_card_id` (src/extractor/utils.py):
    join bank and card name with a hyphen, lower-case, turn spaces into hyphens,
    delete every character outside [a-z0-9-], collapse runs of hyphens into one,
    and strip hyphens from both ends. Lower-casing is modelled on ASCII letters only. */
module CardId {
  import opened Text

  /** A character the regular expression `[a-z0-9-]` keeps. */
  predicate IsSlugChar(c: char) {
    'a' <= c <= 'z' || '0' <= c <= '9' || c == '-'
  }

  predicate IsHyphen(c: char) {
    c == '-'
  }

  predicate NoDoubleHyphen(s: string) {
    forall k :: 0 <= k < |s| - 1 ==> !(s[k] == '-' && s[k + 1] == '-')
  }

  /** The shape every generated id has: slug characters only, no "--", no hyphen at either end. */
  predicate IsSlug(s: string) {
    && All(s, IsSlugChar)
    && NoDoubleHyphen(s)
    && (s == [] || (s[0] != '-' && s[|s| - 1] != '-'))
  }

  /** `str.lower()` on one character, restricted to ASCII letters. */
  function LowerChar(c: char): (l: char)
    ensures !('A' <= l <= 'Z')
    ensures 'A' <= c <= 'Z' ==> 'a' <= l <= 'z' && l as int - 'a' as int == c as int - 'A' as int
    ensures !('A' <= c <= 'Z') ==> l == c
  {
    if 'A' <= c <= 'Z' then (c as int - 'A' as int + 'a' as int) as char else c
  }

  /** `s.lower()`: each capital becomes its small letter in place, and every other
      character stays where it was. */
  function Lower(s: string): (r: string)
    ensures |r| == |s|
    ensures forall k :: 0 <= k < |r| ==> !('A' <= r[k] <= 'Z')
    ensures forall k :: 0 <= k < |s| && !('A' <= s[k] <= 'Z') ==> r[k] == s[k]
    ensures forall k :: 0 <= k < |s| && 'A' <= s[k] <= 'Z' ==> r[k] as int == s[k] as int - 'A' as int + 'a' as int
  {
    seq(|s|, k requires 0 <= k < |s| => LowerChar(s[k]))
  }

  /** `s.replace(' ', '-')`: no space is left, each becomes a hyphen, and nothing else moves. */
  function SpacesToHyphens(s: string): (r: string)
    ensures |r| == |s|
    ensures forall k :: 0 <= k < |r| ==> r[k] != ' '
    ensures forall k :: 0 <= k < |s| ==> r[k] == (if s[k] == ' ' then '-' else s[k])
  {
    seq(|s|, k requires 0 <= k < |s| => if s[k] == ' ' then '-' else s[k])
  }

  /** `re.sub(r'[^a-z0-9-]', '', s)`: characters outside the class are deleted; the result
      is no longer than the input and holds only characters of the input. */
  function KeepSlugChars(s: string): (r: string)
    ensures |r| <= |s|
    ensures forall c :: c in r ==> c in s
  {
    if s == [] then []
    else (if IsSlugChar(s[0]) then [s[0]] else []) + KeepSlugChars(s[1..])
  }

  /** `s` with every hyphen removed. */
  function DropHyphens(s: string): (r: string)
    ensures '-' !in r
  {
    if s == [] then []
    else (if s[0] == '-' then [] else [s[0]]) + DropHyphens(s[1..])
  }

  /** `re.sub(r'-+', '-', s)`: each run of hyphens becomes a single hyphen.
      A hyphen followed by another hyphen is dropped, so the run keeps its last one.
      Apart from hyphens, the characters are exactly those of `s`, in the same order. */
  function CollapseHyphens(s: string): (r: string)
    ensures NoDoubleHyphen(r)
    ensures |s| > 0 ==> |r| > 0 && r[0] == s[0]
    ensures forall c :: c in r ==> c in s
    ensures DropHyphens(r) == DropHyphens(s)
  {
    if |s| < 2 then s
    else if s[0] == '-' && s[1] == '-' then CollapseHyphens(s[1..])
    else
      var rest := CollapseHyphens(s[1..]);
      assert ([s[0]] + rest)[1..] == rest;
      [s[0]] + rest
  }

  /** The normalisation applied to the joined bank and card name. */
  function Normalize(s: string): (r: string)
    ensures IsSlug(r)
  {
    var kept := KeepSlugChars(SpacesToHyphens(Lower(s)));
    KeepSlugCharsAllowed(SpacesToHyphens(Lower(s)));
    var collapsed := CollapseHyphens(kept);
    assert All(collapsed, IsSlugChar) by {
      forall k | 0 <= k < |collapsed| ensures IsSlugChar(collapsed[k]) {
        assert collapsed[k] in kept;
      }
    }
    SliceKeepsSlugChars(collapsed, Trim(collapsed, IsHyphen));
    Trim(collapsed, IsHyphen)
  }

  /** `generate_card_id(bank, card_name)`. */
  function GenerateCardId(bank: string, cardName: string): (id: string)
    ensures IsSlug(id)
  {
    Normalize(bank + "-" + cardName)
  }

  // ---------------------------------------------------------------------------
  // Lemmas about the stages

  lemma {:induction false} KeepSlugCharsAllowed(s: string)
    ensures All(KeepSlugChars(s), IsSlugChar)
  {
    if s != [] {
      KeepSlugCharsAllowed(s[1..]);
    }
  }

  /** A string made of slug characters passes the character filter untouched. */
  lemma {:induction false} KeepSlugCharsUnchanged(s: string)
    requires All(s, IsSlugChar)
    ensures KeepSlugChars(s) == s
  {
    if s != [] {
      assert All(s[1..], IsSlugChar) by {
        forall k | 0 <= k < |s| - 1 ensures IsSlugChar(s[1..][k]) { assert s[1..][k] == s[k + 1]; }
      }
      KeepSlugCharsUnchanged(s[1..]);
      assert [s[0]] + s[1..] == s;
    }
  }

  /** The character filter works on each character on its own. */
  lemma {:induction false} KeepSlugCharsAppend(a: string, b: string)
    ensures KeepSlugChars(a + b) == KeepSlugChars(a) + KeepSlugChars(b)
  {
    if a == [] {
      assert a + b == b;
    } else {
      var head := if IsSlugChar(a[0]) then [a[0]] else [];
      assert (a + b)[0] == a[0] && (a + b)[1..] == a[1..] + b;
      assert KeepSlugChars(a + b) == head + KeepSlugChars(a[1..] + b);
      KeepSlugCharsAppend(a[1..], b);
      assert head + (KeepSlugChars(a[1..]) + KeepSlugChars(b)) == (head + KeepSlugChars(a[1..])) + KeepSlugChars(b);
    }
  }

  /** A string without "--" is left as it is by the hyphen collapse. */
  lemma {:induction false} CollapseUnchanged(s: string)
    requires NoDoubleHyphen(s)
    ensures CollapseHyphens(s) == s
  {
    if |s| >= 2 {
      assert NoDoubleHyphen(s[1..]) by {
        forall k | 0 <= k < |s| - 2 ensures !(s[1..][k] == '-' && s[1..][k + 1] == '-') {
          assert s[1..][k] == s[k + 1] && s[1..][k + 1] == s[k + 2];
        }
      }
      CollapseUnchanged(s[1..]);
      assert [s[0]] + s[1..] == s;
    }
  }

  /** Two hyphens in a row collapse as one does: with `CollapseUnchanged`, this makes every
      run of hyphens end up as exactly one. */
  lemma {:induction false} CollapseRun(a: string, b: string)
    ensures CollapseHyphens(a + "--" + b) == CollapseHyphens(a + "-" + b)
  {
    var s := a + "--" + b;
    var t := a + "-" + b;
    if a == [] {
      assert s[1..] == t;
    } else {
      assert s[0] == t[0] == a[0];
      assert s[1] == t[1];
      assert s[1..] == a[1..] + "--" + b;
      assert t[1..] == a[1..] + "-" + b;
      CollapseRun(a[1..], b);
    }
  }

  /** Slicing keeps the character class and the absence of "--"; `t` is any slice of `s`. */
  lemma SliceKeepsSlugChars(s: string, t: string)
    requires All(s, IsSlugChar) && NoDoubleHyphen(s)
    requires exists i, j :: 0 <= i <= j <= |s| && t == s[i..j]
    ensures All(t, IsSlugChar) && NoDoubleHyphen(t)
  {
    var i, j :| 0 <= i <= j <= |s| && t == s[i..j];
    forall k | 0 <= k < |t| ensures IsSlugChar(t[k]) { assert t[k] == s[i + k]; }
    forall k | 0 <= k < |t| - 1 ensures !(t[k] == '-' && t[k + 1] == '-') {
      assert t[k] == s[i + k] && t[k + 1] == s[i + k + 1];
    }
  }

  // ---------------------------------------------------------------------------
  // Properties of the whole rule

  /** Every slug is a fixed point of the normalisation. */
  lemma SlugIsFixedPoint(s: string)
    requires IsSlug(s)
    ensures Normalize(s) == s
  {
    assert Lower(s) == s;
    assert SpacesToHyphens(s) == s;
    KeepSlugCharsUnchanged(s);
    CollapseUnchanged(s);
    TrimUnchanged(s, IsHyphen);
  }

  /** Normalising an already generated id gives that id back. */
  lemma NormalizeIdempotent(s: string)
    ensures Normalize(Normalize(s)) == Normalize(s)
  {
    SlugIsFixedPoint(Normalize(s));
  }

  /** A space and a hyphen are interchangeable anywhere in the input. */
  lemma SpaceActsAsHyphen(a: string, b: string)
    ensures Normalize(a + " " + b) == Normalize(a + "-" + b)
  {
    var x, y := a + " " + b, a + "-" + b;
    assert SpacesToHyphens(Lower(x)) == SpacesToHyphens(Lower(y)) by {
      forall k | 0 <= k < |x| ensures SpacesToHyphens(Lower(x))[k] == SpacesToHyphens(Lower(y))[k] {
        if k < |a| { assert x[k] == a[k] == y[k]; }
        else if k > |a| { assert x[k] == b[k - |a| - 1] == y[k]; }
      }
    }
  }

  /** A character that is neither an ASCII capital, nor a space, nor in [a-z0-9-] is
      deleted, not replaced: the result is as if it had never been there. */
  lemma DeletedNotReplaced(a: string, c: char, b: string)
    requires !IsSlugChar(c) && !('A' <= c <= 'Z') && c != ' '
    ensures Normalize(a + [c] + b) == Normalize(a + b)
  {
    var sa, sb := SpacesToHyphens(Lower(a)), SpacesToHyphens(Lower(b));
    var x, y := a + [c] + b, a + b;
    assert SpacesToHyphens(Lower(x)) == sa + [c] + sb by {
      forall k | 0 <= k < |x| ensures SpacesToHyphens(Lower(x))[k] == (sa + [c] + sb)[k] {
        if k < |a| { assert x[k] == a[k]; }
        else if k > |a| { assert x[k] == b[k - |a| - 1]; }
      }
    }
    assert SpacesToHyphens(Lower(y)) == sa + sb by {
      forall k | 0 <= k < |y| ensures SpacesToHyphens(Lower(y))[k] == (sa + sb)[k] {
        if k < |a| { assert y[k] == a[k]; } else { assert y[k] == b[k - |a|]; }
      }
    }
    calc {
      KeepSlugChars(sa + [c] + sb);
      { KeepSlugCharsAppend(sa + [c], sb); }
      KeepSlugChars(sa + [c]) + KeepSlugChars(sb);
      { KeepSlugCharsAppend(sa, [c]); assert KeepSlugChars([c]) == []; }
      KeepSlugChars(sa) + KeepSlugChars(sb);
      { KeepSlugCharsAppend(sa, sb); }
      KeepSlugChars(sa + sb);
    }
  }

  /** Bank and name are joined by a hyphen and spaces become hyphens. */
  lemma GenerateCardIdExample()
    ensures GenerateCardId("HDFC Bank", "Infinia Metal") == "hdfc-bank-infinia-metal"
  {
    assert "HDFC Bank" + "-" + "Infinia Metal" == "HDFC Bank-Infinia Metal";
    ExampleLowered();
    ExampleHyphenated();
    NormalizeToSlug("HDFC Bank-Infinia Metal", "hdfc-bank-infinia-metal");
  }

  /** An input whose lowered, hyphenated form is already a slug normalises to that slug. */
  lemma NormalizeToSlug(s: string, t: string)
    requires SpacesToHyphens(Lower(s)) == t && IsSlug(t)
    ensures Normalize(s) == t
  {
    KeepSlugCharsUnchanged(t);
    CollapseUnchanged(t);
    TrimUnchanged(t, IsHyphen);
  }

  lemma ExampleLowered()
    ensures Lower("HDFC Bank-Infinia Metal") == "hdfc bank-infinia metal"
  {
    var joined, lowered := "HDFC Bank-Infinia Metal", "hdfc bank-infinia metal";
    forall k | 0 <= k < |joined| ensures Lower(joined)[k] == lowered[k] {
      if k <= 3 || k == 5 || k == 10 || k == 18 {
        assert 'A' <= joined[k] <= 'Z';
      } else {
        assert !('A' <= joined[k] <= 'Z');
      }
    }
  }

  lemma ExampleHyphenated()
    ensures SpacesToHyphens("hdfc bank-infinia metal") == "hdfc-bank-infinia-metal"
    ensures IsSlug("hdfc-bank-infinia-metal")
  {
  }

  /** Input without any letter or digit gives the empty id. */
  lemma GenerateCardIdEmpty()
    ensures GenerateCardId("", "") == ""
  {
    assert "" + "-" + "" == "-";
    assert Lower("-") == "-";
    assert SpacesToHyphens("-") == "-";
    assert KeepSlugChars("-") == "-";
    assert CollapseHyphens("-") == "-";
    assert Trim("-", IsHyphen) == "" by {
      TrimEmptyIff("-", IsHyphen);
    }
  }
}
