/** The A/B boot script: attempt counters kept as hexadecimal text across reboots. */
module BootSlots {
  import opened Common

  // ----- hexadecimal text

  function HexDigit(c: char): nat {
    if '0' <= c <= '9' then c as int - '0' as int
    else if 'a' <= c <= 'f' then c as int - 'a' as int + 10
    else if 'A' <= c <= 'F' then c as int - 'A' as int + 10
    else 16
  }

  /** strtoul(..., 16) on 32 bits: the leading hexadecimal digits. */
  function FromHex(s: string): u32 {
    FromHexTail(s, 0)
  }

  function FromHexTail(s: string, value: u32): u32
    decreases |s|
  {
    if s == "" || HexDigit(s[0]) >= 16 then value
    else FromHexTail(s[1..], (value * 16 + HexDigit(s[0])) % 0x1_0000_0000)
  }

  function LowerHex(d: nat): char
    requires d < 16
  {
    if d < 10 then ('0' as int + d) as char else ('a' as int + d - 10) as char
  }

  /** printf("%lx"). */
  function ToHex(n: nat): (s: string)
    ensures s != ""
  {
    if n < 16 then [LowerHex(n)] else ToHex(n / 16) + [LowerHex(n % 16)]
  }

  lemma {:induction false} FromHexSnoc(s: string, c: char, value: u32)
    requires AllHex(s) && HexDigit(c) < 16
    ensures FromHexTail(s + [c], value) == (FromHexTail(s, value) * 16 + HexDigit(c)) % 0x1_0000_0000
    decreases |s|
  {
    if s == "" {
      assert [c][1..] == "";
      assert s + [c] == [c];
    } else {
      assert (s + [c])[1..] == s[1..] + [c];
      FromHexSnoc(s[1..], c, (value * 16 + HexDigit(s[0])) % 0x1_0000_0000);
    }
  }

  lemma DigitIs(c: char, i: nat)
    requires i < 16
    ensures HexDigit("0123456789abcdef"[i]) == i == HexDigit("0123456789ABCDEF"[i])
    ensures LowerHex(i) == "0123456789abcdef"[i]
    ensures HexDigit(c) == i ==> c == "0123456789abcdef"[i] || c == "0123456789ABCDEF"[i]
  {
  }

  /** A number ends before the first character that is no digit. */
  lemma {:induction false} FromHexStops(s: string, c: char, rest: string, value: u32)
    requires AllHex(s) && HexDigit(c) >= 16
    ensures FromHexTail(s + [c] + rest, value) == FromHexTail(s, value)
    decreases |s|
  {
    if s == "" {
      assert (s + [c] + rest)[0] == c;
    } else {
      assert (s + [c] + rest)[1..] == s[1..] + [c] + rest;
      FromHexStops(s[1..], c, rest, (value * 16 + HexDigit(s[0])) % 0x1_0000_0000);
    }
  }

  predicate AllHex(s: string) {
    forall i | 0 <= i < |s| :: HexDigit(s[i]) < 16
  }

  lemma OneDigit(d: nat)
    requires d < 16
    ensures HexDigit(LowerHex(d)) == d && AllHex([LowerHex(d)]) && FromHex([LowerHex(d)]) == d
  {
    assert [LowerHex(d)][1..] == "";
    assert FromHexTail([LowerHex(d)], 0) == FromHexTail("", d);
  }

  lemma OneMoreDigit(s: string, c: char)
    requires AllHex(s) && HexDigit(c) < 16
    ensures AllHex(s + [c]) && FromHex(s + [c]) == (FromHex(s) * 16 + HexDigit(c)) % 0x1_0000_0000
  {
    FromHexSnoc(s, c, 0);
  }

  /** What the script writes it reads back. */
  lemma {:induction false} HexRoundTrip(n: u32)
    ensures AllHex(ToHex(n)) && FromHex(ToHex(n)) == n
  {
    OneDigit(n % 16);
    if n < 16 {
      assert n % 16 == n;
    } else {
      HexRoundTrip(n / 16);
      OneMoreDigit(ToHex(n / 16), LowerHex(n % 16));
    }
  }

  // ----- one boot

  datatype Slot = A | B

  /** The words of BOOT_ORDER the script knows. */
  function SlotOf(word: string): Option<Slot> {
    if word == "A" then Some(A) else if word == "B" then Some(B) else None
  }

  datatype Outcome = Started(slot: Slot) | Reset

  /** Attempts left for the slots. */
  datatype Left = Left(a: nat, b: nat) {
    function Of(slot: Slot): nat {
      if slot.A? then a else b
    }
    function Less(slot: Slot): Left
      requires Of(slot) > 0
    {
      if slot.A? then Left(a - 1, b) else Left(a, b - 1)
    }
  }

  /** The first word that names a slot with attempts left, from the k-th on. */
  function FirstWithAttempts(order: seq<string>, left: Left, k: nat): Option<Slot>
    requires k <= |order|
    decreases |order| - k
  {
    if k == |order| then None
    else if SlotOf(order[k]).Some? && left.Of(SlotOf(order[k]).value) > 0 then SlotOf(order[k])
    else FirstWithAttempts(order, left, k + 1)
  }

  /** One boot: what is started, and the attempts that are left. */
  function Boot(order: seq<string>, left: Left): (Outcome, Left) {
    var slot := FirstWithAttempts(order, left, 0);
    if slot.Some? then FirstFound(order, left, 0); (Started(slot.value), left.Less(slot.value))
    else (Reset, Left(3, 3))
  }

  /** It is the first listed slot with attempts left, and there is one unless every listed
      slot has none. */
  lemma {:induction false} FirstFound(order: seq<string>, left: Left, k: nat)
    requires k <= |order|
    ensures var slot := FirstWithAttempts(order, left, k);
            if slot.Some? then
              left.Of(slot.value) > 0
              && exists i :: k <= i < |order| && SlotOf(order[i]) == slot
                          && forall j | k <= j < i :: SlotOf(order[j]).None? || left.Of(SlotOf(order[j]).value) == 0
            else forall j | k <= j < |order| :: SlotOf(order[j]).None? || left.Of(SlotOf(order[j]).value) == 0
    decreases |order| - k
  {
    if k == |order| {
    } else {
      FirstFound(order, left, k + 1);
      if SlotOf(order[k]).Some? && left.Of(SlotOf(order[k]).value) > 0 {
        assert SlotOf(order[k]) == FirstWithAttempts(order, left, k);
      } else if FirstWithAttempts(order, left, k + 1).Some? {
        var slot := FirstWithAttempts(order, left, k + 1);
        var i :| k + 1 <= i < |order| && SlotOf(order[i]) == slot
                 && forall j | k + 1 <= j < i :: SlotOf(order[j]).None? || left.Of(SlotOf(order[j]).value) == 0;
        assert SlotOf(order[i]) == FirstWithAttempts(order, left, k);
      }
    }
  }

  /** What a boot does, word by word: the first word that names a slot with attempts left
      decides, and without one the counters are refilled. */
  lemma BootMeans(order: seq<string>, left: Left)
    ensures match Boot(order, left) {
              case (Started(A), after) =>
                left.a > 0 && after.a == left.a - 1 && after.b == left.b
                && exists i :: 0 <= i < |order| && order[i] == "A"
                               && forall j | 0 <= j < i :: order[j] == "B" ==> left.b == 0
              case (Started(B), after) =>
                left.b > 0 && after.a == left.a && after.b == left.b - 1
                && exists i :: 0 <= i < |order| && order[i] == "B"
                               && forall j | 0 <= j < i :: order[j] == "A" ==> left.a == 0
              case (Reset, after) =>
                after.a == 3 && after.b == 3
                && ("A" in order ==> left.a == 0) && ("B" in order ==> left.b == 0)
            }
  {
    FirstFound(order, left, 0);
    var slot := FirstWithAttempts(order, left, 0);
    if slot.None? {
      forall j | 0 <= j < |order| ensures (order[j] == "A" ==> left.a == 0) && (order[j] == "B" ==> left.b == 0) {
        assert SlotOf(order[j]).None? || left.Of(SlotOf(order[j]).value) == 0;
      }
    } else {
      var i :| 0 <= i < |order| && SlotOf(order[i]) == slot
               && forall j | 0 <= j < i :: SlotOf(order[j]).None? || left.Of(SlotOf(order[j]).value) == 0;
      assert order[i] == if slot.value.A? then "A" else "B";
      forall j | 0 <= j < i ensures (order[j] == "A" ==> left.a == 0) && (order[j] == "B" ==> left.b == 0) {
        assert SlotOf(order[j]).None? || left.Of(SlotOf(order[j]).value) == 0;
      }
    }
  }

  lemma {:induction false} DefaultOrder(order: seq<string>, left: Left)
    requires order == ["A", "B"]
    ensures Boot(order, left)
            == if left.a > 0 then (Started(A), Left(left.a - 1, left.b))
               else if left.b > 0 then (Started(B), Left(left.a, left.b - 1)) else (Reset, Left(3, 3))
  {
    assert FirstWithAttempts(order, left, 2) == None;
    assert FirstWithAttempts(order, left, 1) == if left.b > 0 then Some(B) else None;
  }

  // ----- the script

  /** The environment variables of the script. */
  class Environment {
    var bootOrder: seq<string>     // the words of BOOT_ORDER
    var bootALeft: string
    var bootBLeft: string
    var bootargs: string
    var loadimage: string
    var loadfdt: string
    const default_bootargs: string

    constructor (order: seq<string>, a: string, b: string, default_bootargs: string)
      ensures bootOrder == order && bootALeft == a && bootBLeft == b && this.default_bootargs == default_bootargs
    {
      bootOrder, bootALeft, bootBLeft, bootargs, loadimage, loadfdt := order, a, b, "", "", "";
      this.default_bootargs := default_bootargs;
    }

    /** The counters as the script reads them, 3 where a variable is empty. */
    function Attempts(): Left
      reads this
    {
      Left(if bootALeft == "" then 3 else FromHex(bootALeft), if bootBLeft == "" then 3 else FromHex(bootBLeft))
    }

    /** The words the script goes through. */
    function Order(): seq<string>
      reads this
    {
      if bootOrder == [] then ["A", "B"] else bootOrder
    }

    /** The counters are small enough for a signed comparison. */
    predicate Sane()
      reads this
    {
      FromHex(bootALeft) < 0x8000_0000 && FromHex(bootBLeft) < 0x8000_0000
    }

    /** What the load commands and the kernel get when a slot was chosen. */
    predicate Boots(slot: Slot)
      reads this
    {
      bootargs == default_bootargs + (if slot.A? then ARGS_A else ARGS_B)
      && loadimage == (if slot.A? then IMAGE_A else IMAGE_B)
      && loadfdt == (if slot.A? then FDT_A else FDT_B)
    }

    /** A counter as a reader of the script would say it: empty means three. */
    function Tries(text: string): nat {
      if text == "" then 3 else FromHex(text)
    }

    /** boot.sh up to the load commands. */
    method Run() returns (outcome: Outcome)
      requires Sane()
      modifies this
      ensures (outcome, Attempts()) == Boot(old(Order()), old(Attempts()))
      ensures Order() == old(Order()) && Sane()
      // without a BOOT_ORDER, A comes before B
      ensures old(bootOrder) == [] ==>
                outcome == if Tries(old(bootALeft)) > 0 then Started(A)
                           else if Tries(old(bootBLeft)) > 0 then Started(B) else Reset
      // the counters that are left in the environment
      ensures bootALeft != "" && bootBLeft != ""
      ensures FromHex(bootALeft)
              == match outcome {
                   case Started(A) => Tries(old(bootALeft)) - 1
                   case Started(B) => Tries(old(bootALeft))
                   case Reset => 3
                 }
      ensures FromHex(bootBLeft)
              == match outcome {
                   case Started(A) => Tries(old(bootBLeft))
                   case Started(B) => Tries(old(bootBLeft)) - 1
                   case Reset => 3
                 }
      // the commands
      ensures outcome == Started(A) ==>
                && loadimage == "ext4load mmc 1:1 ${loadaddr} /boot/${image}"
                && loadfdt == "ext4load mmc 1:1 ${fdt_addr} /boot/${fdt_file}"
                && bootargs == default_bootargs + " root=/dev/mmcblk1p1 rootwait rw rauc.slot=A"
      ensures outcome == Started(B) ==>
                && loadimage == "ext4load mmc 1:2 ${loadaddr} /boot/${image}"
                && loadfdt == "ext4load mmc 1:2 ${fdt_addr} /boot/${fdt_file}"
                && bootargs == default_bootargs + " root=/dev/mmcblk1p2 rootwait rw rauc.slot=B"
    {
      if bootOrder == [] {
        DefaultOrder(Order(), Attempts());
      }
      SetDefaults();
      ChooseSlot();
      if bootargs != "" {
        outcome := Chosen(FirstWithAttempts(bootOrder, old(Attempts()), 0).value);
      } else {
        Refill();
        outcome := Reset;
      }
    }

    /** The loop over the slots. */
    method ChooseSlot()
      requires Sane() && bootALeft != "" && bootBLeft != ""
      modifies `bootALeft, `bootBLeft, `bootargs, `loadimage, `loadfdt
      ensures Sane() && bootALeft != "" && bootBLeft != ""
      ensures var slot := FirstWithAttempts(bootOrder, old(Attempts()), 0);
              if slot.Some? then
                Boots(slot.value) && bootargs != ""
                && old(Attempts()).Of(slot.value) > 0 && Attempts() == old(Attempts()).Less(slot.value)
              else
                bootargs == "" && Attempts() == old(Attempts())
    {
      ghost var left := Attempts();
      ghost var started: Option<Slot> := None;
      bootargs := "";
      for k := 0 to |bootOrder|
        invariant bootALeft != "" && bootBLeft != "" && Sane()
        invariant started.None? ==> bootargs == "" && Attempts() == left
                                    && FirstWithAttempts(bootOrder, left, 0) == FirstWithAttempts(bootOrder, left, k)
        invariant started.Some? ==> Boots(started.value) && bootargs != ""
                                    && FirstWithAttempts(bootOrder, left, 0) == started
                                    && left.Of(started.value) > 0 && Attempts() == left.Less(started.value)
      {
        if bootargs == "" {
          TrySlot(bootOrder[k]);
          if bootargs != "" {
            started := SlotOf(bootOrder[k]);
          }
        }
      }
    }

    /** Which slot the load commands name. */
    method Chosen(ghost slot: Slot) returns (outcome: Outcome)
      requires Boots(slot)
      ensures outcome == Started(slot)
    {
      assert IMAGE_A[15] != IMAGE_B[15];
      outcome := Started(if loadimage == IMAGE_A then A else B);
    }

    /** The variables that are empty get their defaults. */
    method SetDefaults()
      requires Sane()
      modifies this
      ensures bootOrder == Order() == old(Order()) && bootOrder != []
      ensures bootALeft != "" && bootBLeft != "" && Attempts() == old(Attempts()) && Sane()
    {
      ThreeIsThree();
      if bootOrder == [] {
        bootOrder := ["A", "B"];
      }
      if bootALeft == "" {
        bootALeft := "3";
      }
      if bootBLeft == "" {
        bootBLeft := "3";
      }
    }

    method Refill()
      modifies `bootALeft, `bootBLeft
      ensures bootALeft == bootBLeft == "3" && Attempts() == Left(3, 3) && Sane()
    {
      ThreeIsThree();
      bootALeft := "3";
      bootBLeft := "3";
    }

    /** One turn of the loop while no slot is chosen yet. */
    method TrySlot(slot: string)
      requires Sane() && bootALeft != "" && bootBLeft != "" && bootargs == ""
      modifies `bootALeft, `bootBLeft, `bootargs, `loadimage, `loadfdt
      ensures Sane() && bootALeft != "" && bootBLeft != ""
      ensures var known := SlotOf(slot);
              if known.Some? && old(Attempts()).Of(known.value) > 0 then
                Attempts() == old(Attempts()).Less(known.value) && Boots(known.value) && bootargs != ""
              else
                bootargs == "" && Attempts() == old(Attempts())
    {
      if slot == "A" {
        if FromHex(bootALeft) > 0 {
          bootALeft := OneLess(bootALeft);
          loadimage := IMAGE_A;
          loadfdt := FDT_A;
          bootargs := default_bootargs + ARGS_A;
        }
      } else if slot == "B" {
        if FromHex(bootBLeft) > 0 {
          bootBLeft := OneLess(bootBLeft);
          loadimage := IMAGE_B;
          loadfdt := FDT_B;
          bootargs := default_bootargs + ARGS_B;
        }
      }
    }
  }

  /** setexpr with "- 1". */
  method OneLess(text: string) returns (less: string)
    requires FromHex(text) > 0
    ensures less != "" && FromHex(less) == FromHex(text) - 1
  {
    less := ToHex(FromHex(text) - 1);
    HexRoundTrip(FromHex(text) - 1);
  }

  const IMAGE_A := "ext4load mmc 1:1 ${loadaddr} /boot/${image}"
  const IMAGE_B := "ext4load mmc 1:2 ${loadaddr} /boot/${image}"
  const FDT_A := "ext4load mmc 1:1 ${fdt_addr} /boot/${fdt_file}"
  const FDT_B := "ext4load mmc 1:2 ${fdt_addr} /boot/${fdt_file}"
  const ARGS_A := " root=/dev/mmcblk1p1 rootwait rw rauc.slot=A"
  const ARGS_B := " root=/dev/mmcblk1p2 rootwait rw rauc.slot=B"

  lemma ThreeIsThree()
    ensures FromHex("3") == 3
  {
    assert "3"[1..] == "";
  }

  // ----- runs across reboots

  /** The outcomes of n boots with no reset from outside. */
  function Outcomes(order: seq<string>, left: Left, n: nat): (r: seq<Outcome>)
    ensures |r| == n
    decreases n
  {
    if n == 0 then [] else [Boot(order, left).0] + Outcomes(order, Boot(order, left).1, n - 1)
  }

  /** The order lists both slots, the given one first. */
  predicate ListsFirst(order: seq<string>, first: Slot) {
    var second := if first.A? then B else A;
    exists i, j :: 0 <= i < j < |order| && SlotOf(order[i]) == Some(first) && SlotOf(order[j]) == Some(second)
                   && forall k | 0 <= k < |order| && k != i && k != j :: SlotOf(order[k]).None?
  }

  function Other(slot: Slot): Slot {
    if slot.A? then B else A
  }

  function Repeat(o: Outcome, n: nat): (r: seq<Outcome>)
    ensures |r| == n
    decreases n
  {
    if n == 0 then [] else [o] + Repeat(o, n - 1)
  }

  /** With both slots listed once, a boot starts the first while it has attempts, then the
      second, and resets when neither has. */
  lemma BootInOrder(order: seq<string>, first: Slot, left: Left)
    requires ListsFirst(order, first)
    ensures Boot(order, left)
            == (if left.Of(first) > 0 then (Started(first), left.Less(first))
                else if left.Of(Other(first)) > 0 then (Started(Other(first)), left.Less(Other(first)))
                else (Reset, Left(3, 3)))
  {
    FirstFound(order, left, 0);
    var i, j :| 0 <= i < j < |order| && SlotOf(order[i]) == Some(first) && SlotOf(order[j]) == Some(Other(first))
                && forall k | 0 <= k < |order| && k != i && k != j :: SlotOf(order[k]).None?;
    var slot := FirstWithAttempts(order, left, 0);
    if slot.Some? {
      var m :| 0 <= m < |order| && SlotOf(order[m]) == slot
               && forall k | 0 <= k < m :: SlotOf(order[k]).None? || left.Of(SlotOf(order[k]).value) == 0;
      assert m == i || m == j;
    }
  }

  /** f boots of the first slot, s of the second, and one reset. */
  function InOrder(first: Slot, f: nat, s: nat): seq<Outcome> {
    Repeat(Started(first), f) + Repeat(Started(Other(first)), s) + [Reset]
  }

  lemma {:induction false} OneMore(o: Outcome, n: nat, rest: seq<Outcome>)
    ensures Repeat(o, n + 1) + rest == [o] + (Repeat(o, n) + rest)
    ensures Repeat(o, 0) + rest == rest
  {
    assert Repeat(o, n + 1) == [o] + Repeat(o, n);
  }

  lemma {:induction false} OneMoreFirst(first: Slot, f: nat, s: nat)
    ensures InOrder(first, f + 1, s) == [Started(first)] + InOrder(first, f, s)
  {
    var second := Repeat(Started(Other(first)), s);
    OneMore(Started(first), f, second);
    assert [Started(first)] + (Repeat(Started(first), f) + second) + [Reset]
        == [Started(first)] + (Repeat(Started(first), f) + second + [Reset]);
  }

  lemma {:induction false} OneMoreOther(first: Slot, s: nat)
    ensures InOrder(first, 0, s + 1) == [Started(Other(first))] + InOrder(first, 0, s)
    ensures InOrder(first, 0, 0) == [Reset]
  {
    OneMore(Started(Other(first)), s, [Reset]);
  }

  lemma {:induction false} OneMoreBoot(order: seq<string>, left: Left, n: nat)
    ensures Outcomes(order, left, n + 1) == [Boot(order, left).0] + Outcomes(order, Boot(order, left).1, n)
  {
  }

  /** f attempts for the first slot and s for the other. */
  function Both(first: Slot, f: nat, s: nat): Left {
    if first.A? then Left(f, s) else Left(s, f)
  }

  lemma BootBoth(order: seq<string>, first: Slot, f: nat, s: nat)
    requires ListsFirst(order, first)
    ensures Boot(order, Both(first, f, s))
            == if f > 0 then (Started(first), Both(first, f - 1, s))
               else if s > 0 then (Started(Other(first)), Both(first, f, s - 1))
               else (Reset, Left(3, 3))
  {
    BootInOrder(order, first, Both(first, f, s));
  }

  /** One more boot in front of a run that uses up what is left. */
  lemma {:induction false} BootsOn(order: seq<string>, first: Slot, left: Left, f: nat, s: nat, n: nat)
    requires n == f + s + 1
    requires Outcomes(order, Boot(order, left).1, n) == InOrder(first, f, s)
    ensures Boot(order, left).0 == Started(first) ==> Outcomes(order, left, n + 1) == InOrder(first, f + 1, s)
    ensures Boot(order, left).0 == Started(Other(first)) && f == 0 ==>
              Outcomes(order, left, n + 1) == InOrder(first, 0, s + 1)
  {
    OneMoreBoot(order, left, n);
    OneMoreFirst(first, f, s);
    OneMoreOther(first, s);
  }

  lemma {:induction false} BothUsedInOrder(order: seq<string>, first: Slot, f: nat, s: nat, n: nat)
    requires ListsFirst(order, first) && n == f + s
    ensures Outcomes(order, Both(first, f, s), n + 1) == InOrder(first, f, s)
    decreases n
  {
    BootBoth(order, first, f, s);
    if f > 0 {
      BothUsedInOrder(order, first, f - 1, s, n - 1);
      BootsOn(order, first, Both(first, f, s), f - 1, s, n);
    } else if s > 0 {
      BothUsedInOrder(order, first, 0, s - 1, n - 1);
      BootsOn(order, first, Both(first, f, s), 0, s - 1, n);
    } else {
      OneMoreBoot(order, Both(first, f, s), n);
      OneMoreOther(first, 0);
    }
  }

  /** Attempts are used up in listed order, then one reset refills both: with f attempts for
      the first listed slot and s for the second, the first f boots start the first slot, the
      next s the second, and the one after resets. */
  lemma AttemptsUsedInOrder(order: seq<string>, first: Slot, left: Left)
    requires ListsFirst(order, first)
    ensures var f, s := left.Of(first), left.Of(Other(first)); Outcomes(order, left, f + s + 1) == InOrder(first, f, s)
  {
    BothUsedInOrder(order, first, left.Of(first), left.Of(Other(first)), left.Of(first) + left.Of(Other(first)));
    assert left == Both(first, left.Of(first), left.Of(Other(first)));
  }

  /** Where a run stands after n boots. */
  function After(order: seq<string>, left: Left, n: nat): Left
    decreases n
  {
    if n == 0 then left else After(order, Boot(order, left).1, n - 1)
  }

  lemma {:induction false} OutcomeAt(order: seq<string>, left: Left, n: nat, i: nat)
    requires i < n
    ensures Outcomes(order, left, n)[i] == Boot(order, After(order, left, i)).0
    ensures After(order, left, i + 1) == Boot(order, After(order, left, i)).1
    decreases i
  {
    if i == 0 {
    } else {
      OutcomeAt(order, Boot(order, left).1, n - 1, i - 1);
    }
  }

  /** With A or B listed, a run never resets twice in a row. */
  lemma NoTwoResets(order: seq<string>, left: Left, n: nat, i: nat)
    requires "A" in order || "B" in order
    requires i + 1 < n
    ensures !(Outcomes(order, left, n)[i].Reset? && Outcomes(order, left, n)[i + 1].Reset?)
  {
    OutcomeAt(order, left, n, i);
    OutcomeAt(order, left, n, i + 1);
    FirstFound(order, Left(3, 3), 0);
    var k :| 0 <= k < |order| && (order[k] == "A" || order[k] == "B");
    assert SlotOf(order[k]).Some?;
  }
}
