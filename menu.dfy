/** The menu loop of `main` (TrabalhoFinal.py; old/TrabalhoFinal_v2.py has
    the same loop): read a choice, strip it, re-prompt on anything that is
    not one of "0".."12", stop on "0", and otherwise dispatch the numbered
    action.  The lines the user types are a parameter; running out of them
    ends the loop as end of input would. */
module Menu {
  import opened PyStr

  /** `str(n)` for a natural number. */
  function Decimal(n: nat): (s: string)
    decreases n
  {
    (if n < 10 then [] else Decimal(n / 10)) + [('0' as int + n % 10) as char]
  }

  /** The decimal forms of the menu numbers. */
  lemma SmallDecimals()
    ensures Decimal(0) == "0" && Decimal(1) == "1" && Decimal(2) == "2" && Decimal(3) == "3"
    ensures Decimal(4) == "4" && Decimal(5) == "5" && Decimal(6) == "6" && Decimal(7) == "7"
    ensures Decimal(8) == "8" && Decimal(9) == "9"
    ensures Decimal(10) == "10" && Decimal(11) == "11" && Decimal(12) == "12"
  {
  }

  /** `opcoes_validas = {str(i) for i in range(13)}`. */
  function ValidOptions(): set<string> {
    set i | 0 <= i < 13 :: Decimal(i)
  }

  /** The options written out: the same set as `ValidOptions`, proved equal
      by `ValidOptionsAreZeroToTwelve`, in the literal form the loop uses. */
  function MenuOptions(): set<string> {
    {"0", "1", "2", "3", "4", "5", "6", "7", "8", "9", "10", "11", "12"}
  }

  /** The valid options are exactly the thirteen strings "0" to "12": no
      padding, sign or leading zero is accepted. */
  lemma ValidOptionsAreZeroToTwelve()
    ensures ValidOptions() == MenuOptions()
  {
    SmallDecimals();
    assert forall i :: 0 <= i < 10 ==> Decimal(i) == [('0' as int + i) as char];
  }

  /** The entries of the menu other than "0  Sair do Programa". */
  datatype Action =
    | CreateTables | InsertSampleData | Insert | Update | Delete
    | Report1 | Report2 | Report3 | SelectTable | Text2Sql
    | DropTables | ListTables

  /** The number printed next to an entry in `MENU`. */
  function MenuNumber(a: Action): nat {
    match a
    case CreateTables => 1
    case InsertSampleData => 2
    case Insert => 3
    case Update => 4
    case Delete => 5
    case Report1 => 6
    case Report2 => 7
    case Report3 => 8
    case SelectTable => 9
    case Text2Sql => 10
    case DropTables => 11
    case ListTables => 12
  }

  /** The `if`/`elif` chain: a valid choice other than "0" dispatches the
      entry the menu prints under that number. */
  function ActionOf(choice: string): Action
    requires choice in MenuOptions() && choice != "0"
  {
    if choice == "1" then CreateTables
    else if choice == "2" then InsertSampleData
    else if choice == "3" then Insert
    else if choice == "4" then Update
    else if choice == "5" then Delete
    else if choice == "6" then Report1
    else if choice == "7" then Report2
    else if choice == "8" then Report3
    else if choice == "9" then SelectTable
    else if choice == "10" then Text2Sql
    else if choice == "11" then DropTables
    else ListTables
  }

  /** A valid choice other than "0" dispatches the entry numbered by it. */
  lemma ActionOfNumber(choice: string)
    requires choice in MenuOptions() && choice != "0"
    ensures Decimal(MenuNumber(ActionOf(choice))) == choice
  {
    SmallDecimals();
  }

  /** The actions dispatched while reading `inputs` from position `i` on,
      up to the first "0". */
  function DispatchesFrom(inputs: seq<string>, i: nat): seq<Action>
    decreases |inputs| - i
  {
    if i >= |inputs| then []
    else
      var choice := Strip(inputs[i]);
      if choice !in MenuOptions() then DispatchesFrom(inputs, i + 1)
      else if choice == "0" then []
      else [ActionOf(choice)] + DispatchesFrom(inputs, i + 1)
  }

  /** The actions dispatched while reading `inputs`. */
  function Dispatches(inputs: seq<string>): seq<Action> {
    DispatchesFrom(inputs, 0)
  }

  /** A typed line that ends the loop. */
  predicate IsExit(line: string) {
    Strip(line) == "0"
  }

  /** None of the first `i` lines of `inputs` ends the loop. */
  predicate NoExitBefore(inputs: seq<string>, i: nat)
    requires i <= |inputs|
  {
    i == 0 || (!IsExit(inputs[i - 1]) && NoExitBefore(inputs, i - 1))
  }

  /** A line that does not end the loop extends a run without an exit. */
  lemma NoExitBeforeStep(inputs: seq<string>, i: nat)
    requires i < |inputs| && NoExitBefore(inputs, i) && !IsExit(inputs[i])
    ensures NoExitBefore(inputs, i + 1)
  {
  }

  /** `NoExitBefore` holds exactly when none of those lines strips to "0". */
  lemma {:induction false} NoExitBeforeIff(inputs: seq<string>, i: nat)
    requires i <= |inputs|
    ensures NoExitBefore(inputs, i) <==> forall k :: 0 <= k < i ==> !IsExit(inputs[k])
  {
    if i > 0 {
      NoExitBeforeIff(inputs, i - 1);
    }
  }

  /** The `while True` loop of `main`. */
  method MainLoop(inputs: seq<string>) returns (actions: seq<Action>, quit: bool)
    ensures actions == Dispatches(inputs)
    ensures quit <==> exists k :: 0 <= k < |inputs| && IsExit(inputs[k])
  {
    actions, quit := [], false;
    var i := 0;
    while i < |inputs|
      invariant 0 <= i <= |inputs|
      invariant Dispatches(inputs) == actions + DispatchesFrom(inputs, i)
      invariant NoExitBefore(inputs, i)
    {
      var escolha := Strip(inputs[i]);
      DispatchStep(inputs, i);
      if escolha !in MenuOptions() {
        NoExitBeforeStep(inputs, i);
        i := i + 1;
        continue;
      }
      if escolha == "0" {
        quit := true;
        break;
      }
      NoExitBeforeStep(inputs, i);
      actions := actions + [ActionOf(escolha)];
      i := i + 1;
    }
    NoExitBeforeIff(inputs, i);
  }

  /** One turn of the loop at position `i`. */
  lemma DispatchStep(inputs: seq<string>, i: nat)
    requires i < |inputs|
    ensures Strip(inputs[i]) !in MenuOptions() ==>
              !IsExit(inputs[i]) && DispatchesFrom(inputs, i) == DispatchesFrom(inputs, i + 1)
    ensures Strip(inputs[i]) == "0" ==> DispatchesFrom(inputs, i) == []
    ensures Strip(inputs[i]) in MenuOptions() && Strip(inputs[i]) != "0" ==>
              !IsExit(inputs[i]) &&
              DispatchesFrom(inputs, i) == [ActionOf(Strip(inputs[i]))] + DispatchesFrom(inputs, i + 1)
  {
  }

  /** Two inputs that agree from positions `i` and `j` on dispatch the same
      actions from there. */
  lemma {:induction false} DispatchesFromSuffix(a: seq<string>, i: nat, b: seq<string>, j: nat)
    requires i <= |a| && j <= |b| && a[i..] == b[j..]
    ensures DispatchesFrom(a, i) == DispatchesFrom(b, j)
    decreases |a| - i
  {
    if i < |a| {
      assert a[i] == a[i..][0] == b[j..][0] == b[j];
      assert a[i + 1..] == a[i..][1..] == b[j..][1..] == b[j + 1..];
      DispatchesFromSuffix(a, i + 1, b, j + 1);
    }
  }

  /** "0" ends the loop: nothing typed after it is dispatched, whatever it is. */
  lemma ZeroEndsTheLoop(before: seq<string>, zero: string, after: seq<string>)
    requires IsExit(zero)
    ensures Dispatches(before + [zero] + after) == Dispatches(before)
  {
    ZeroEndsFrom(before, zero, after, 0);
  }

  lemma {:induction false} ZeroEndsFrom(before: seq<string>, zero: string, after: seq<string>, i: nat)
    requires IsExit(zero) && i <= |before|
    ensures DispatchesFrom(before + [zero] + after, i) == DispatchesFrom(before, i)
    decreases |before| - i
  {
    var all := before + [zero] + after;
    if i == |before| {
      assert all[i] == zero;
    } else {
      assert all[i] == before[i];
      ZeroEndsFrom(before, zero, after, i + 1);
    }
  }

  /** A choice outside "0".."12" is re-prompted: the run dispatches the same
      actions as if it had never been typed. */
  lemma InvalidChoiceIgnored(before: seq<string>, bad: string, after: seq<string>)
    requires Strip(bad) !in ValidOptions()
    ensures Dispatches(before + [bad] + after) == Dispatches(before + after)
  {
    ValidOptionsAreZeroToTwelve();
    InvalidFrom(before, bad, after, 0);
  }

  lemma {:induction false} InvalidFrom(before: seq<string>, bad: string, after: seq<string>, i: nat)
    requires Strip(bad) !in MenuOptions() && i <= |before|
    ensures DispatchesFrom(before + [bad] + after, i) == DispatchesFrom(before + after, i)
    decreases |before| - i
  {
    var all := before + [bad] + after;
    if i == |before| {
      assert all[i] == bad;
      assert all[i + 1..] == (before + after)[i..];
      DispatchesFromSuffix(all, i + 1, before + after, i);
    } else {
      assert all[i] == (before + after)[i] == before[i];
      InvalidFrom(before, bad, after, i + 1);
    }
  }
}
