/**
  How the version marker is read (server/migrations.go:34-41): as a decimal number.  The numerals are written here by
  repeated division, the other way round from the reader in MigrationSpec.
*/
module MigrationVersion {
  import opened Prelude
  import opened Keys
  import opened MigrationSpec
  import opened MigrationFaults

  const NUMERALS: string := "0123456789"

  /** The decimal numeral of a number, without leading zeros. */
  function Numeral(n: nat): string {
    (if n < 10 then "" else Numeral(n / 10)) + [NUMERALS[n % 10]]
  }

  /** strconv.Itoa. */
  function Itoa(n: int): string {
    if n < 0 then "-" + Numeral(-n) else Numeral(n)
  }

  predicate Int64(n: int) {
    -0x8000_0000_0000_0000 <= n < 0x8000_0000_0000_0000
  }

  predicate Zeros(s: string) {
    forall i :: 0 <= i < |s| ==> s[i] == '0'
  }

  /** `s` is the numeral of n after an optional sign and any number of zeros; a zero may have either sign. */
  predicate Spells(s: string, n: int, sign: string, zeros: string) {
    && Zeros(zeros)
    && s == sign + zeros + Numeral(if n < 0 then -n else n)
    && (sign == "-" || (sign in ["", "+"] && n >= 0))
    && (sign == "-" ==> n <= 0)
  }

  ghost predicate Denotes(s: string, n: int) {
    Int64(n) && exists sign, zeros :: Spells(s, n, sign, zeros)
  }

  lemma AppendDigit(front: string, d: nat)
    requires AllDigits(front) && d < 10
    ensures AllDigits(front + [NUMERALS[d]]) && Digits(front + [NUMERALS[d]]) == Digits(front) * 10 + d
  {
    NumeralIs(d);
    var c := NUMERALS[d];
    assert (front + [c])[..|front + [c]| - 1] == front;
  }

  lemma NumeralIs(d: nat)
    requires d < 10
    ensures '0' <= NUMERALS[d] <= '9' && NUMERALS[d] as int - '0' as int == d
  {
  }

  lemma {:induction false} NumeralRead(n: nat)
    ensures AllDigits(Numeral(n)) && Digits(Numeral(n)) == n && Numeral(n) != ""
  {
    hide Digits, Numeral, AllDigits;
    var q, d := n / 10, n % 10;
    assert n == q * 10 + d;
    NumeralStep(q, d);
    if q == 0 {
      NoDigits();
      AppendDigit("", d);
      assert [] + [NUMERALS[d]] == [NUMERALS[d]];
    } else {
      NumeralRead(q);
      AppendDigit(Numeral(q), d);
    }
  }

  lemma NoDigits()
    ensures AllDigits("") && Digits("") == 0
  {
  }

  lemma {:induction false} ZerosRead(zeros: string, s: string)
    requires Zeros(zeros) && AllDigits(s)
    ensures AllDigits(zeros + s) && Digits(zeros + s) == Digits(s)
    decreases |s|, |zeros|
  {
    if s != "" {
      assert (zeros + s)[..|zeros + s| - 1] == zeros + s[..|s| - 1];
      ZerosRead(zeros, s[..|s| - 1]);
    } else if zeros != "" {
      assert zeros + s == zeros && zeros[..|zeros| - 1] + "" == zeros[..|zeros| - 1];
      ZerosRead(zeros[..|zeros| - 1], "");
    }
  }

  /** Every nonempty string of digits is the numeral of the number read from it, with zeros in front. */
  lemma {:induction false} DigitsSpell(s: string) returns (zeros: string)
    requires AllDigits(s) && s != ""
    ensures Zeros(zeros) && s == zeros + Numeral(Digits(s))
  {
    hide Numeral, Digits;
    var front := s[..|s| - 1];
    var d := s[|s| - 1] as int - '0' as int;
    assert s == front + [NUMERALS[d]];
    LastDigit(front, d);
    if front == "" {
      return "";
    }
    zeros := DigitsSpell(front);
    if Digits(front) == 0 {
      zeros := zeros + "0";
    }
  }

  lemma LastDigit(front: string, d: nat)
    requires AllDigits(front) && d < 10
    ensures AllDigits(front + [NUMERALS[d]])
    ensures front == "" ==> Numeral(Digits(front + [NUMERALS[d]])) == [NUMERALS[d]]
    ensures Digits(front) == 0 ==> Numeral(Digits(front)) == "0"
    ensures Digits(front) == 0 ==> Numeral(Digits(front + [NUMERALS[d]])) == [NUMERALS[d]]
    ensures Digits(front) > 0 ==>
              Numeral(Digits(front + [NUMERALS[d]])) == Numeral(Digits(front)) + [NUMERALS[d]]
  {
    hide Numeral;
    AppendDigit(front, d);
    NumeralStep(Digits(front), d);
  }

  lemma NumeralStep(n: nat, d: nat)
    requires d < 10
    ensures Numeral(n * 10 + d) == (if n == 0 then "" else Numeral(n)) + [NUMERALS[d]]
    ensures Numeral(0) == "0"
  {
    assert (n * 10 + d) / 10 == n && (n * 10 + d) % 10 == d;
  }

  /** What Atoi reads after a sign. */
  lemma AtoiSigned(sign: string, body: string)
    requires sign in ["", "+", "-"] && AllDigits(body) && body != ""
    ensures var n: int := if sign == "-" then -(Digits(body) as int) else Digits(body);
            Atoi(sign + body) == if Int64(n) then Some(n) else None
  {
    hide Digits;
    assert '0' <= body[0] <= '9';
    if sign == "" {
      assert sign + body == body;
    } else {
      assert (sign + body)[1..] == body;
    }
  }

  lemma AtoiSplits(s: string) returns (sign: string, body: string)
    requires Atoi(s).Some?
    ensures s == sign + body && sign in ["", "+", "-"] && AllDigits(body) && body != ""
  {
    hide Digits;
    sign := if "-" <= s then "-" else if "+" <= s then "+" else "";
    body := s[|sign|..];
    assert s == sign + body;
  }

  lemma SpelledIsRead(s: string, n: int, sign: string, zeros: string)
    requires Int64(n) && Spells(s, n, sign, zeros)
    ensures Atoi(s) == Some(n)
  {
    hide Atoi, Digits, Numeral;
    var m: nat := if n < 0 then -n else n;
    NumeralRead(m);
    ZerosRead(zeros, Numeral(m));
    AtoiSigned(sign, zeros + Numeral(m));
    assert s == sign + (zeros + Numeral(m));
  }

  lemma ReadIsSpelled(s: string, n: int) returns (sign: string, zeros: string)
    requires Atoi(s) == Some(n)
    ensures Int64(n) && Spells(s, n, sign, zeros)
  {
    hide Atoi, Digits, Numeral;
    var body;
    sign, body := AtoiSplits(s);
    AtoiSigned(sign, body);
    zeros := DigitsSpell(body);
    assert s == sign + zeros + Numeral(Digits(body));
  }

  /** Atoi reads exactly the spellings of 64-bit numbers. */
  lemma AtoiIff(s: string, n: int)
    ensures Atoi(s) == Some(n) <==> Denotes(s, n)
  {
    if Atoi(s) == Some(n) {
      var sign, zeros := ReadIsSpelled(s, n);
    }
    if Denotes(s, n) {
      var sign, zeros :| Spells(s, n, sign, zeros);
      SpelledIsRead(s, n, sign, zeros);
    }
  }

  /** The version of a store: the number its marker denotes, and 0 where there is no marker or it denotes none. */
  lemma VersionIff(kv: Store, n: int)
    ensures (VersionOf(kv) == n
             <==> match Val(kv, StoreVersion)
                  case None => n == 0
                  case Some(s) => Denotes(s, n) || (n == 0 && forall m :: !Denotes(s, m)))
  {
    hide Atoi, Denotes;
    if StoreVersion in kv {
      var s := kv[StoreVersion];
      AtoiIff(s, n);
      forall m
        ensures Denotes(s, m) <==> Atoi(s) == Some(m)
      {
        AtoiIff(s, m);
      }
    }
  }

  /** A store marked with the numeral of a 64-bit number has that version. */
  lemma MarkerRoundTrip(kv: Store, n: int)
    requires Int64(n) && Val(kv, StoreVersion) == Some(Itoa(n))
    ensures VersionOf(kv) == n
  {
    hide Numeral, Atoi;
    var sign := if n < 0 then "-" else "";
    assert "" + "" + Numeral(if n < 0 then -n else n) == Numeral(if n < 0 then -n else n);
    SpelledIsRead(Itoa(n), n, sign, "");
  }

  /**
    The loops a run makes, from the number in the marker: all four below 1, the two over legacy keys at 1, none from 2
    on.  "0", which the migrate command writes, calls for all four; the marker left behind is the current version's.
  */
  lemma MarkerChoosesLoops(kv: Store, n: int)
    requires Int64(n) && Val(kv, StoreVersion) == Some(Itoa(n))
    ensures PhasesFor(VersionOf(kv)) == [Users, Channels, DMs, MatrixDMs] <==> n < 1
    ensures PhasesFor(VersionOf(kv)) == [DMs, MatrixDMs] <==> n == 1
    ensures PhasesFor(VersionOf(kv)) == [] <==> n >= 2
    ensures Itoa(0) == "0" && VERSION_WRITE == Put(VersionMark, StoreVersion, Itoa(2))
  {
    hide VersionOf;
    MarkerRoundTrip(kv, n);
    var phs := PhasesFor(VersionOf(kv));
    assert |phs| == if n < 1 then 4 else if n < 2 then 2 else 0;
  }

  /** No readable marker is version 0, which calls for all four loops. */
  lemma UnmarkedRunsAll(kv: Store)
    requires match Val(kv, StoreVersion) case None => true case Some(s) => forall m :: !Denotes(s, m)
    ensures VersionOf(kv) == 0 && PhasesFor(VersionOf(kv)) == [Users, Channels, DMs, MatrixDMs]
  {
    VersionIff(kv, 0);
  }
}
