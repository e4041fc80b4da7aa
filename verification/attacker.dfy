/** The `Attacker` behaviour: resolving one blow with a d20 roll, and the
    line the event log records for it. */
module Attacker {
  import opened Common

  /** `attack` and the critical bonus (`crit_bonus`, or `crit` on the other
      track). */
  datatype Offense = Offense(attack: int, critBonus: int)

  /** The result of one resolution against a defender. */
  datatype Resolution = Hit(damage: int, crit: bool) | Miss

  /** The d20 face that counts as a critical. */
  const CritRoll: int := 20

  predicate IsD20(roll: int) {
    1 <= roll <= 20
  }

  /** `deal_damage` against a defender with the given `defense`: a 20 adds
      the critical bonus to the damage, and the blow lands iff the roll is at
      least the defense. A 20 does not bypass the defense check. */
  function Resolve(o: Offense, defense: int, roll: int): (r: Resolution)
    requires IsD20(roll)
    ensures r.Hit? <==> roll >= defense
    ensures r.Hit? ==> (r.crit <==> roll == CritRoll)
    ensures r.Hit? ==> r.damage == o.attack + (if roll == CritRoll then o.critBonus else 0)
  {
    var total := if roll == CritRoll then o.attack + o.critBonus else o.attack;
    if roll >= defense then Hit(total, roll == CritRoll) else Miss
  }

  /** A defense above 20 cannot be hit, not even by a critical roll. */
  lemma CritDoesNotBypassDefense(o: Offense, defense: int)
    requires defense > CritRoll
    ensures forall roll :: IsD20(roll) ==> Resolve(o, defense, roll) == Miss
  {
  }

  /** A higher roll never turns a hit into a miss, and never lowers damage. */
  lemma ResolveMonotoneInRoll(o: Offense, defense: int, r1: int, r2: int)
    requires IsD20(r1) && IsD20(r2) && r1 <= r2 && o.critBonus >= 0
    ensures Resolve(o, defense, r1).Hit? ==> Resolve(o, defense, r2).Hit?
    ensures Resolve(o, defense, r1).Hit? ==>
      Resolve(o, defense, r1).damage <= Resolve(o, defense, r2).damage
  {
  }

  /** The earliest attacker: no roll, every blow lands for exactly `attack`. */
  function ResolveAlwaysHits(o: Offense): (r: Resolution)
    ensures r.Hit? && r.damage == o.attack && !r.crit
  {
    Hit(o.attack, false)
  }

  /** The roll-free attacker is the rolling one against a defense it can never
      miss, on a roll that is not critical. */
  lemma AlwaysHitsIsUndefendedRoll(o: Offense, roll: int)
    requires IsD20(roll) && roll != CritRoll
    ensures ResolveAlwaysHits(o) == Resolve(o, 0, roll)
  {
  }

  /** Decimal text of an integer, as Ruby's string interpolation writes it. */
  function IntToString(n: int): string
    decreases if n < 0 then 1 - n else n
  {
    if n < 0 then "-" + IntToString(-n)
    else if n < 10 then [Digit(n)]
    else IntToString(n / 10) + [Digit(n % 10)]
  }

  function Digit(d: int): char
    requires 0 <= d < 10
  {
    ('0' as int + d) as char
  }

  predicate IsDigit(c: char) {
    '0' <= c <= '9'
  }

  /** The value of a string of decimal digits, read left to right. */
  function ParseDecimal(s: string): int
    decreases |s|
  {
    if |s| == 0 then 0
    else ParseDecimal(s[..|s| - 1]) * 10 + (s[|s| - 1] as int - '0' as int)
  }

  /** A non-negative number prints as a non-empty run of digits that reads
      back as the number. */
  lemma {:induction false} DecimalRoundTrip(n: int)
    requires n >= 0
    ensures var ds := IntToString(n);
      |ds| > 0 && (forall i :: 0 <= i < |ds| ==> IsDigit(ds[i])) && ParseDecimal(ds) == n
    decreases n
  {
    var ds := IntToString(n);
    if n >= 10 {
      DecimalRoundTrip(n / 10);
      var front := IntToString(n / 10);
      assert ds == front + [Digit(n % 10)];
      assert ds[..|ds| - 1] == front;
    } else {
      assert ds[..|ds| - 1] == [];
    }
  }

  const CritPrefix: string := "CRIT! "
  const DamageSuffix: string := " damage"

  /** The event-log line for one resolution: "[CRIT! ]A hit B for N damage"
      on a hit, "A missed B!" on a miss. A hit line starts with the optional
      prefix, the attacker's name, " hit ", the target's name and " for ",
      and ends in the damage's decimal text and " damage"; a miss line starts
      with the attacker's name and ends in "!". */
  function EventLine(attacker: string, target: string, r: Resolution): (line: string)
    ensures r.Hit? ==> var head := (if r.crit then CritPrefix else "") + attacker + " hit " + target + " for ";
      |line| >= |head| && line[..|head|] == head
    ensures r.Hit? ==> var n := IntToString(r.damage);
      |line| >= |n| + |DamageSuffix| && line[|line| - |DamageSuffix| - |n|..] == n + DamageSuffix
    ensures r.Miss? ==> |line| > |attacker| && line[..|attacker|] == attacker && line[|line| - 1] == '!'
  {
    match r
    case Hit(damage, crit) =>
      var line := HitHead(attacker, target, crit) + IntToString(damage) + DamageSuffix;
      assert line[|line| - |DamageSuffix| - |IntToString(damage)|..] == IntToString(damage) + DamageSuffix;
      line
    case Miss =>
      var line := attacker + " missed " + target + "!";
      assert line[..|attacker|] == attacker;
      line
  }

  /** Everything of a hit line before the damage: "[CRIT! ]A hit B for ". */
  function HitHead(attacker: string, target: string, crit: bool): (h: string)
    ensures |h| > 0 && h[|h| - 1] == ' '
  {
    (if crit then CritPrefix else "") + attacker + " hit " + target + " for "
  }

  /** The digits at the end of a string. */
  function TrailingDigits(s: string): (r: string)
    ensures |r| <= |s|
    decreases |s|
  {
    if |s| > 0 && IsDigit(s[|s| - 1]) then TrailingDigits(s[..|s| - 1]) + [s[|s| - 1]] else []
  }

  /** Reading a log line back: the number just before a final " damage", or
      None for a line that does not end that way. */
  function ReadDamage(line: string): Option<int> {
    if |line| >= |DamageSuffix| && line[|line| - |DamageSuffix|..] == DamageSuffix
    then Some(ParseDecimal(TrailingDigits(line[..|line| - |DamageSuffix|])))
    else None
  }

  /** Digits appended after a non-digit are exactly the trailing digits. */
  lemma {:induction false} TrailingDigitsAfterSeparator(head: string, ds: string)
    requires |head| > 0 && !IsDigit(head[|head| - 1])
    requires forall i :: 0 <= i < |ds| ==> IsDigit(ds[i])
    ensures TrailingDigits(head + ds) == ds
    decreases |ds|
  {
    var s := head + ds;
    if |ds| == 0 {
      assert s == head;
    } else {
      var front := ds[..|ds| - 1];
      assert s[..|s| - 1] == head + front;
      TrailingDigitsAfterSeparator(head, front);
      assert ds == front + [ds[|ds| - 1]];
    }
  }

  /** The damage a hit line reports reads back as the damage dealt, and a
      miss line reports none. */
  lemma DamageReadsBack(attacker: string, target: string, r: Resolution)
    requires r.Hit? ==> r.damage >= 0
    ensures ReadDamage(EventLine(attacker, target, r)) == if r.Hit? then Some(r.damage) else None
  {
    var line := EventLine(attacker, target, r);
    if r.Hit? {
      var head := HitHead(attacker, target, r.crit);
      var n := IntToString(r.damage);
      assert line == (head + n) + DamageSuffix;
      assert line[..|line| - |DamageSuffix|] == head + n;
      DecimalRoundTrip(r.damage);
      TrailingDigitsAfterSeparator(head, n);
    } else {
      assert line[|line| - 1] == '!';
    }
  }

  /** A line carries the critical prefix exactly when it records a critical
      hit, for any attacker whose name does not begin like the prefix. */
  lemma CritPrefixIffCritical(attacker: string, target: string, r: Resolution)
    requires |attacker| > 0 && attacker[0] != CritPrefix[0]
    ensures var line := EventLine(attacker, target, r);
      (|line| >= |CritPrefix| && line[..|CritPrefix|] == CritPrefix) <==> (r.Hit? && r.crit)
  {
    var line := EventLine(attacker, target, r);
    if r.Hit? && r.crit {
      var rest := attacker + " hit " + target + " for " + IntToString(r.damage) + DamageSuffix;
      assert line == CritPrefix + rest;
      PrefixOfConcat(CritPrefix, rest);
    } else {
      var rest := if r.Hit? then " hit " + target + " for " + IntToString(r.damage) + DamageSuffix
                  else " missed " + target + "!";
      assert line == attacker + rest;
      assert line[0] == attacker[0];
    }
  }

  lemma PrefixOfConcat(a: string, b: string)
    ensures (a + b)[..|a|] == a
  {
  }
}
