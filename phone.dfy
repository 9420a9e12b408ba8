/**
 * The WhatsApp number formatter (formatar_telefone): the digits of the input are
 * laid out as a Brazilian phone number when there are 10 or 11 of them; any other
 * input is passed through.
 */
module Phone {
  import opened Common

  /** A decimal digit (ASCII only; see README). */
  predicate IsDigit(c: char) {
    '0' <= c <= '9'
  }

  predicate AllDigits(s: string) {
    forall i :: 0 <= i < |s| ==> IsDigit(s[i])
  }

  /** The digit characters of s, in their original order. */
  function Digits(s: string): (d: string)
    ensures |d| <= |s|
    ensures AllDigits(d)
  {
    if s == [] then []
    else (if IsDigit(s[0]) then [s[0]] else []) + Digits(s[1..])
  }

  lemma {:induction false} DigitsAppend(a: string, b: string)
    ensures Digits(a + b) == Digits(a) + Digits(b)
  {
    if a == [] {
      assert a + b == b;
    } else {
      assert (a + b)[0] == a[0];
      assert (a + b)[1..] == a[1..] + b;
      DigitsAppend(a[1..], b);
      var h := if IsDigit(a[0]) then [a[0]] else [];
      assert Digits(a + b) == h + Digits(a[1..] + b);
      assert h + (Digits(a[1..]) + Digits(b)) == (h + Digits(a[1..])) + Digits(b);
    }
  }

  lemma {:induction false} DigitsOfDigits(s: string)
    requires AllDigits(s)
    ensures Digits(s) == s
  {
    if s != [] {
      assert AllDigits(s[1..]) by {
        forall i | 0 <= i < |s[1..]| ensures IsDigit(s[1..][i]) {
          assert s[1..][i] == s[i + 1];
        }
      }
      DigitsOfDigits(s[1..]);
    }
  }

  /** Inserting one non-digit character anywhere in the input leaves its digits unchanged. */
  lemma DigitsIgnoreNonDigit(a: string, c: char, b: string)
    requires !IsDigit(c)
    ensures Digits(a + [c] + b) == Digits(a + b)
  {
    DigitsAppend(a + [c], b);
    DigitsAppend(a, [c]);
    DigitsAppend(a, b);
    assert Digits([c]) == [] by {
      assert [c][1..] == [];
    }
  }

  // ---------------------------------------------------------------------------
  // Display masks: an independent description of the two layouts.
  // A '#' in a mask is filled with the next digit; every other character is copied.

  const Hole: char := '#'

  /** A run of n holes. */
  function Run(n: nat): string
  {
    seq(n, _ => Hole)
  }

  /** The mask (n1) n2-n3, as hole runs of the given lengths between the literals. */
  function GroupMask(n1: nat, n2: nat, n3: nat): string {
    "(" + Run(n1) + ") " + Run(n2) + "-" + Run(n3)
  }

  /** (##) #####-####: a two-digit area code and a nine-digit mobile number. */
  const MobileMask: string := GroupMask(2, 5, 4)

  /** (##) ####-####: a two-digit area code and an eight-digit landline number. */
  const LandlineMask: string := GroupMask(2, 4, 4)

  /** No character other than a hole is a digit, so a filled mask holds only the filled-in digits. */
  predicate LiteralsAreNotDigits(mask: string) {
    forall i :: 0 <= i < |mask| && mask[i] != Hole ==> !IsDigit(mask[i])
  }

  function Holes(mask: string): nat
  {
    if mask == [] then 0 else (if mask[0] == Hole then 1 else 0) + Holes(mask[1..])
  }

  /** The mask with its holes filled, left to right, by the characters of d. */
  function FillMask(mask: string, d: string): (r: string)
    requires Holes(mask) == |d|
    ensures |r| == |mask|
  {
    if mask == [] then []
    else if mask[0] == Hole then [d[0]] + FillMask(mask[1..], d[1..])
    else [mask[0]] + FillMask(mask[1..], d)
  }

  lemma {:induction false} HolesAppend(a: string, b: string)
    ensures Holes(a + b) == Holes(a) + Holes(b)
  {
    if a == [] {
      assert a + b == b;
    } else {
      assert (a + b)[0] == a[0];
      assert (a + b)[1..] == a[1..] + b;
      HolesAppend(a[1..], b);
    }
  }

  /** Filling two masks side by side fills each with its own share of the digits. */
  lemma {:induction false} FillMaskAppend(a: string, b: string, da: string, db: string)
    requires Holes(a) == |da| && Holes(b) == |db|
    ensures Holes(a + b) == |da + db|
    ensures FillMask(a + b, da + db) == FillMask(a, da) + FillMask(b, db)
  {
    HolesAppend(a, b);
    if a == [] {
      assert a + b == b;
      assert da + db == db;
    } else {
      assert (a + b)[0] == a[0];
      assert (a + b)[1..] == a[1..] + b;
      if a[0] == Hole {
        assert (da + db)[0] == da[0];
        assert (da + db)[1..] == da[1..] + db;
        FillMaskAppend(a[1..], b, da[1..], db);
      } else {
        FillMaskAppend(a[1..], b, da, db);
      }
    }
  }

  /** A mask without holes fills to itself. */
  lemma {:induction false} FillLiteral(m: string)
    requires Holes(m) == 0
    ensures FillMask(m, []) == m
  {
    if m != [] {
      FillLiteral(m[1..]);
    }
  }

  /** A mask made only of holes fills to the digits themselves. */
  lemma {:induction false} FillHoles(m: string, d: string)
    requires forall i :: 0 <= i < |m| ==> m[i] == Hole
    requires |m| == |d|
    ensures Holes(m) == |d|
    ensures FillMask(m, d) == d
  {
    if m != [] {
      FillHoles(m[1..], d[1..]);
    }
  }

  /** Appending a literal to a mask appends it to the filled mask. */
  lemma FillThenLiteral(a: string, lit: string, da: string)
    requires Holes(a) == |da| && Holes(lit) == 0
    ensures Holes(a + lit) == |da|
    ensures FillMask(a + lit, da) == FillMask(a, da) + lit
  {
    FillLiteral(lit);
    FillMaskAppend(a, lit, da, []);
    assert da + [] == da;
  }

  /** Appending a run of holes to a mask appends the digits that fill it. */
  lemma FillThenRun(a: string, n: nat, da: string, dr: string)
    requires Holes(a) == |da| && |dr| == n
    ensures Holes(a + Run(n)) == |da + dr|
    ensures FillMask(a + Run(n), da + dr) == FillMask(a, da) + dr
  {
    FillHoles(Run(n), dr);
    FillMaskAppend(a, Run(n), da, dr);
  }

  lemma LiteralsAppend(a: string, b: string)
    requires LiteralsAreNotDigits(a) && LiteralsAreNotDigits(b)
    ensures LiteralsAreNotDigits(a + b)
  {
    forall i | 0 <= i < |a + b| && (a + b)[i] != Hole ensures !IsDigit((a + b)[i]) {
      if i >= |a| {
        assert (a + b)[i] == b[i - |a|];
      }
    }
  }

  lemma GroupMaskLiterals(n1: nat, n2: nat, n3: nat)
    ensures LiteralsAreNotDigits(GroupMask(n1, n2, n3))
  {
    LiteralsAppend("(", Run(n1));
    LiteralsAppend("(" + Run(n1), ") ");
    LiteralsAppend("(" + Run(n1) + ") ", Run(n2));
    LiteralsAppend("(" + Run(n1) + ") " + Run(n2), "-");
    LiteralsAppend("(" + Run(n1) + ") " + Run(n2) + "-", Run(n3));
  }

  /** The filled mask holds exactly the digits it was given, in order. */
  lemma {:induction false} DigitsOfFilledMask(mask: string, d: string)
    requires Holes(mask) == |d|
    requires AllDigits(d)
    requires LiteralsAreNotDigits(mask)
    ensures Digits(FillMask(mask, d)) == d
  {
    if mask != [] {
      var r := FillMask(mask, d);
      if mask[0] == Hole {
        assert AllDigits(d[1..]) by {
          forall i | 0 <= i < |d[1..]| ensures IsDigit(d[1..][i]) {
            assert d[1..][i] == d[i + 1];
          }
        }
        DigitsOfFilledMask(mask[1..], d[1..]);
        DigitsAppend([d[0]], FillMask(mask[1..], d[1..]));
        assert [d[0]][1..] == [];
      } else {
        DigitsOfFilledMask(mask[1..], d);
        DigitsAppend([mask[0]], FillMask(mask[1..], d));
        assert [mask[0]][1..] == [];
      }
    }
  }

  // ---------------------------------------------------------------------------
  // The formatter

  /**
   * formatar_telefone: "" for an absent or empty input; the 11- or 10-digit
   * layout when the input holds that many digits; the input itself otherwise.
   */
  function FormatPhone(telefone: Option<string>): (r: string)
    ensures telefone.None? || telefone == Some("") ==> r == ""
    ensures (telefone.Some? && telefone.value != "" &&
             |Digits(telefone.value)| != 11 && |Digits(telefone.value)| != 10) ==> r == telefone.value
  {
    if telefone.None? || telefone.value == "" then ""
    else
      var numeros := Digits(telefone.value);
      if |numeros| == 11 then "(" + numeros[..2] + ") " + numeros[2..7] + "-" + numeros[7..]
      else if |numeros| == 10 then "(" + numeros[..2] + ") " + numeros[2..6] + "-" + numeros[6..]
      else telefone.value
  }

  /** A literal followed by a run of holes, appended to a mask, appends the literal and the digits. */
  lemma FillThenGroup(a: string, lit: string, da: string, dr: string)
    requires Holes(a) == |da| && Holes(lit) == 0
    ensures Holes(a + lit + Run(|dr|)) == |da + dr|
    ensures FillMask(a + lit + Run(|dr|), da + dr) == FillMask(a, da) + lit + dr
  {
    FillThenLiteral(a, lit, da);
    FillThenRun(a + lit, |dr|, da, dr);
  }

  /** Three literals, each followed by a run of holes, filled with three digit groups. */
  lemma FillGroups(l1: string, l2: string, l3: string, d1: string, d2: string, d3: string)
    requires Holes(l1) == 0 && Holes(l2) == 0 && Holes(l3) == 0
    ensures Holes(l1 + Run(|d1|) + l2 + Run(|d2|) + l3 + Run(|d3|)) == |d1 + d2 + d3|
    ensures FillMask(l1 + Run(|d1|) + l2 + Run(|d2|) + l3 + Run(|d3|), d1 + d2 + d3)
              == l1 + d1 + l2 + d2 + l3 + d3
  {
    FillLiteral(l1);
    FillThenRun(l1, |d1|, [], d1);
    assert [] + d1 == d1;
    FillThenGroup(l1 + Run(|d1|), l2, d1, d2);
    FillThenGroup(l1 + Run(|d1|) + l2 + Run(|d2|), l3, d1 + d2, d3);
  }

  /** Filling the three-group mask with three digit groups lays them out as (d1) d2-d3. */
  lemma ThreeGroups(d1: string, d2: string, d3: string)
    ensures Holes(GroupMask(|d1|, |d2|, |d3|)) == |d1 + d2 + d3|
    ensures FillMask(GroupMask(|d1|, |d2|, |d3|), d1 + d2 + d3) == "(" + d1 + ") " + d2 + "-" + d3
  {
    FillGroups("(", ") ", "-", d1, d2, d3);
  }

  /** The mobile mask filled with eleven characters, written out by position groups. */
  lemma MobileLayout(d: string)
    requires |d| == 11
    ensures Holes(MobileMask) == 11
    ensures FillMask(MobileMask, d) == "(" + d[..2] + ") " + d[2..7] + "-" + d[7..]
  {
    assert d[..2] + d[2..7] + d[7..] == d;
    ThreeGroups(d[..2], d[2..7], d[7..]);
  }

  /** The landline mask filled with ten characters, written out by position groups. */
  lemma LandlineLayout(d: string)
    requires |d| == 10
    ensures Holes(LandlineMask) == 10
    ensures FillMask(LandlineMask, d) == "(" + d[..2] + ") " + d[2..6] + "-" + d[6..]
  {
    assert d[..2] + d[2..6] + d[6..] == d;
    ThreeGroups(d[..2], d[2..6], d[6..]);
  }

  /** Eleven digits, wherever they stand among other characters, fill the mobile mask in order. */
  lemma FormatMobile(s: string)
    requires |Digits(s)| == 11
    ensures Holes(MobileMask) == 11
    ensures FormatPhone(Some(s)) == FillMask(MobileMask, Digits(s))
  {
    MobileLayout(Digits(s));
  }

  /** Ten digits fill the landline mask in order. */
  lemma FormatLandline(s: string)
    requires |Digits(s)| == 10
    ensures Holes(LandlineMask) == 10
    ensures FormatPhone(Some(s)) == FillMask(LandlineMask, Digits(s))
  {
    LandlineLayout(Digits(s));
  }

  /** Formatting never adds, drops or reorders a digit. */
  lemma FormatKeepsDigits(telefone: Option<string>)
    ensures Digits(FormatPhone(telefone)) == if telefone.Some? then Digits(telefone.value) else ""
  {
    if telefone.Some? && telefone.value != "" {
      var s := telefone.value;
      var d := Digits(s);
      if |d| == 11 {
        GroupMaskLiterals(2, 5, 4);
        FormatMobile(s);
        DigitsOfFilledMask(MobileMask, d);
      } else if |d| == 10 {
        GroupMaskLiterals(2, 4, 4);
        FormatLandline(s);
        DigitsOfFilledMask(LandlineMask, d);
      }
    }
  }

  /** Formatting an already formatted number changes nothing. */
  lemma FormatIdempotent(telefone: Option<string>)
    ensures FormatPhone(Some(FormatPhone(telefone))) == FormatPhone(telefone)
  {
    var r := FormatPhone(telefone);
    if telefone.Some? && telefone.value != "" {
      var d := Digits(telefone.value);
      if |d| == 11 || |d| == 10 {
        FormatKeepsDigits(telefone);
        if |d| == 11 {
          FormatMobile(telefone.value);
          FormatMobile(r);
        } else {
          FormatLandline(telefone.value);
          FormatLandline(r);
        }
      }
    }
  }
}
