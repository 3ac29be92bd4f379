/** Names, values, errors and sequence helpers shared by the model of HookR. */
module Base {

  /** A Ruby Symbol: a hook name, a parameter name or a callback handle. */
  type Name = string

  /** An argument that travels with an event: any Ruby object, here an opaque integer. */
  type Value = int

  /** The object_id of an object of the host program (an event source, a listener). */
  type ObjectId = nat

  /** The reserved name of the hook that sees every event. */
  const Wildcard: Name := "__wildcard__"

  datatype Option<T> = None | Some(value: T) {
    function GetOr(default: T): T {
      match this
      case Some(v) => v
      case None => default
    }
  }

  /** The exceptions the dispatch core raises, with the messages it raises them with. */
  datatype Error =
    | IncompatibleArity                  // ArgumentError "Callback has incompatible arity"
    | NotSingleArgument                  // ArgumentError "Callback block must take a single argument"
    | InvalidKey                         // ArgumentError "Key must be integer index or symbolic handle"
    | InvalidIndex                       // ArgumentError "index must be Integer or Symbol"
    | ArityOutOfRange(min: nat, max: nat) // ArgumentError "Arity must be between min and max"
    | NoSuchHook(name: Name)             // IndexError "No such hook: name"
    | NoMoreCallbacks                    // RuntimeError "No more callbacks!"
    | UndefinedMethod(message: Name)     // NameError from instance_method: no such instance method
    | Raised(exception: Name)            // whatever a callback's own code raises, NoMethodError from send included

  datatype Result<T> = Ok(value: T) | Err(error: Error)

  function Reverse<T>(s: seq<T>): (r: seq<T>)
    ensures |r| == |s|
    ensures forall i :: 0 <= i < |s| ==> r[i] == s[|s| - 1 - i]
  {
    seq(|s|, i requires 0 <= i < |s| => s[|s| - 1 - i])
  }

  lemma ReverseAppend<T>(a: seq<T>, b: seq<T>)
    ensures Reverse(a + b) == Reverse(b) + Reverse(a)
  {
    var l, r := Reverse(a + b), Reverse(b) + Reverse(a);
    assert |l| == |r|;
    forall i | 0 <= i < |l| ensures l[i] == r[i] {
      if i < |b| {
        assert l[i] == (a + b)[|a| + |b| - 1 - i] == b[|b| - 1 - i];
      } else {
        assert l[i] == (a + b)[|a| + |b| - 1 - i] == a[|a| - 1 - (i - |b|)];
      }
    }
  }

  /** The decimal digits of n, as Integer#to_s writes them. */
  function Decimal(n: nat): (r: string)
    ensures |r| >= 1
    ensures n < 10 <==> |r| == 1
    decreases n
  {
    if n < 10 then [DigitChar(n)] else Decimal(n / 10) + [DigitChar(n % 10)]
  }

  function DigitChar(d: nat): char
    requires d < 10
  {
    (('0' as int) + d) as char
  }

  /** Distinct numbers have distinct decimal representations. */
  lemma {:induction false} DecimalInjective(a: nat, b: nat)
    requires Decimal(a) == Decimal(b)
    ensures a == b
    decreases a
  {
    if a < 10 {
      assert DigitChar(a) == Decimal(a)[0] == DigitChar(b);
    } else {
      var da, db := Decimal(a), Decimal(b);
      assert |db| >= 2;
      assert da[..|da| - 1] == Decimal(a / 10);
      assert db[..|db| - 1] == Decimal(b / 10);
      assert DigitChar(a % 10) == da[|da| - 1] == DigitChar(b % 10);
      DecimalInjective(a / 10, b / 10);
    }
  }
}
