/**
 * The builtin and behaviour tables (Dml/Parse/BuiltinsDict.cs and
 * BehavioursDict.cs). Only what the front end observes is kept: the names,
 * and for each builtin the object it stands for, with a function's purity as
 * read through a `DmlFunction` reference.
 *
 * ConsoleOutput, Vector and Array declare `public virtual bool IsPure`, which
 * hides instead of overriding the base property, so through `DmlFunction` they
 * read as impure. The entries registered as `null` are `NoObject`.
 */
module BuiltinsDict {
  import opened Exceptions
  import opened DmlObjects

  /**
   * `Builtins[name]`: the object a builtin name stands for, and None for a
   * name the dictionary does not hold.
   */
  function Lookup(name: string): Option<DmlObject> {
    match name
    case "ConsoleOutput" => Some(FunctionObj(Builtin(name, false)))
    case "Vector" => Some(FunctionObj(Builtin(name, false)))
    case "Array" => Some(FunctionObj(Builtin(name, false)))
    case "At" => Some(FunctionObj(Builtin(name, false)))
    case "Before" => Some(FunctionObj(Builtin(name, false)))
    case "After" => Some(FunctionObj(Builtin(name, false)))
    case "From" => Some(FunctionObj(Builtin(name, false)))
    case "Outside" => Some(FunctionObj(Builtin(name, false)))
    case "AtIntervals" => Some(FunctionObj(Builtin(name, false)))
    case "DuringIntervals" => Some(FunctionObj(Builtin(name, false)))
    case "AtGlobal" => Some(FunctionObj(Builtin(name, false)))
    case "BeforeGlobal" => Some(FunctionObj(Builtin(name, false)))
    case "AfterGlobal" => Some(FunctionObj(Builtin(name, false)))
    case "FromGlobal" => Some(FunctionObj(Builtin(name, false)))
    case "OutsideGlobal" => Some(FunctionObj(Builtin(name, false)))
    case "AtIntervalsGlobal" => Some(FunctionObj(Builtin(name, false)))
    case "DuringIntervalsGlobal" => Some(FunctionObj(Builtin(name, false)))
    case "Sign" => Some(FunctionObj(Builtin(name, true)))
    case "Floor" => Some(FunctionObj(Builtin(name, true)))
    case "Ceil" => Some(FunctionObj(Builtin(name, true)))
    case "Max" => Some(FunctionObj(Builtin(name, true)))
    case "Min" => Some(FunctionObj(Builtin(name, true)))
    case "Log" => Some(FunctionObj(Builtin(name, true)))
    case "LogB" => Some(FunctionObj(Builtin(name, true)))
    case "Exp" => Some(FunctionObj(Builtin(name, true)))
    case "Factorial" => Some(FunctionObj(Builtin(name, true)))
    case "Random" => Some(FunctionObj(Builtin(name, true)))
    case "Sin" => Some(FunctionObj(Builtin(name, true)))
    case "Cos" => Some(FunctionObj(Builtin(name, true)))
    case "Tan" => Some(FunctionObj(Builtin(name, true)))
    case "Sec" => Some(FunctionObj(Builtin(name, true)))
    case "Csc" => Some(FunctionObj(Builtin(name, true)))
    case "Cot" => Some(FunctionObj(Builtin(name, true)))
    case "SinD" => Some(FunctionObj(Builtin(name, true)))
    case "CosD" => Some(FunctionObj(Builtin(name, true)))
    case "TanD" => Some(FunctionObj(Builtin(name, true)))
    case "SecD" => Some(FunctionObj(Builtin(name, true)))
    case "CscD" => Some(FunctionObj(Builtin(name, true)))
    case "CotD" => Some(FunctionObj(Builtin(name, true)))
    case "Arcsin" => Some(FunctionObj(Builtin(name, true)))
    case "Arccos" => Some(FunctionObj(Builtin(name, true)))
    case "Arctan" => Some(FunctionObj(Builtin(name, true)))
    case "Arcsec" => Some(FunctionObj(Builtin(name, true)))
    case "Arccsc" => Some(FunctionObj(Builtin(name, true)))
    case "Arccot" => Some(FunctionObj(Builtin(name, true)))
    case "Atan2" => Some(FunctionObj(Builtin(name, true)))
    case "ArcsinD" => Some(FunctionObj(Builtin(name, true)))
    case "ArccosD" => Some(FunctionObj(Builtin(name, true)))
    case "ArctanD" => Some(FunctionObj(Builtin(name, true)))
    case "ArcsecD" => Some(FunctionObj(Builtin(name, true)))
    case "ArcscsD" => Some(FunctionObj(Builtin(name, true)))
    case "ArccotD" => Some(FunctionObj(Builtin(name, true)))
    case "Atan2D" => Some(FunctionObj(Builtin(name, true)))
    case "Sinh" => Some(FunctionObj(Builtin(name, true)))
    case "Cosh" => Some(FunctionObj(Builtin(name, true)))
    case "Tanh" => Some(FunctionObj(Builtin(name, true)))
    case "Sech" => Some(FunctionObj(Builtin(name, true)))
    case "Csch" => Some(FunctionObj(Builtin(name, true)))
    case "Coth" => Some(FunctionObj(Builtin(name, true)))
    case "Arsinh" => Some(FunctionObj(Builtin(name, true)))
    case "Arcosh" => Some(FunctionObj(Builtin(name, true)))
    case "Artanh" => Some(FunctionObj(Builtin(name, true)))
    case "Arsech" => Some(FunctionObj(Builtin(name, true)))
    case "Arcsch" => Some(FunctionObj(Builtin(name, true)))
    case "Arcoth" => Some(FunctionObj(Builtin(name, true)))
    case "Sinc" => Some(FunctionObj(Builtin(name, true)))
    case "Tanhc" => Some(FunctionObj(Builtin(name, true)))
    case "Erf" => Some(FunctionObj(Builtin(name, true)))
    case "Gudermannian" => Some(FunctionObj(Builtin(name, true)))
    case "InverseGudermannian" => Some(FunctionObj(Builtin(name, true)))
    case "Si" => Some(NoObject)
    case "Ci" => Some(NoObject)
    case "Gamma" => Some(FunctionObj(Builtin(name, true)))
    case "Digamma" => Some(NoObject)
    case "LambertW" => Some(NoObject)
    case "Beta" => Some(NoObject)
    case "NormalizedBeta" => Some(NoObject)
    case "IncompleteBeta" => Some(NoObject)
    case "AiryA" => Some(FunctionObj(Builtin(name, true)))
    case "AiryB" => Some(FunctionObj(Builtin(name, true)))
    case "BesselJ0" => Some(FunctionObj(Builtin(name, true)))
    case "BesselJ1" => Some(FunctionObj(Builtin(name, true)))
    case "BesselJ" => Some(FunctionObj(Builtin(name, true)))
    case "BesselY0" => Some(FunctionObj(Builtin(name, true)))
    case "BesselY1" => Some(FunctionObj(Builtin(name, true)))
    case "BesselY" => Some(FunctionObj(Builtin(name, true)))
    case "TriangleWave" => Some(NoObject)
    case "SawtoothWave" => Some(NoObject)
    case "SquareWave" => Some(FunctionObj(Builtin(name, true)))
    case "RectWave" => Some(NoObject)
    case "Clausen" => Some(NoObject)
    case "LeftNormal" => Some(FunctionObj(Builtin(name, true)))
    case "RightNormal" => Some(FunctionObj(Builtin(name, true)))
    case "Normalized" => Some(FunctionObj(Builtin(name, true)))
    case "Magnitude" => Some(FunctionObj(Builtin(name, true)))
    case "MagnitudeSqrd" => Some(FunctionObj(Builtin(name, true)))
    case "AngleOf" => Some(FunctionObj(Builtin(name, true)))
    case "AngleOfD" => Some(FunctionObj(Builtin(name, true)))
    case "Polar" => Some(FunctionObj(Builtin(name, true)))
    case "PolarD" => Some(FunctionObj(Builtin(name, true)))
    case "RotateVector" => Some(FunctionObj(Builtin(name, true)))
    case "RotateVectorD" => Some(FunctionObj(Builtin(name, true)))
    case "Lerp" => Some(FunctionObj(Builtin(name, true)))
    case "Pi" => Some(NumberObj(3.141592653589793))
    case "E" => Some(NumberObj(2.718281828459045))
    case "Infinity" => Some(InfinityObj)
    case "ZeroVector" => Some(OtherObj(VectorType))
    case "Up" => Some(OtherObj(VectorType))
    case "Down" => Some(OtherObj(VectorType))
    case "Left" => Some(OtherObj(VectorType))
    case "Right" => Some(OtherObj(VectorType))
    case "Ones" => Some(OtherObj(VectorType))
    case "ScreenCenter" => Some(OtherObj(VectorType))
    case "UniformDistribution" => Some(FunctionObj(Factory(OptionFactory("UniformDistrubtion", ["a", "b"], [NumberType, NumberType]))))
    case _ => None
  }

  /** Every builtin name starts with a capital letter. */
  lemma BuiltinNamesAreCapitalised(name: string)
    ensures Lookup(name).Some? ==> |name| > 0 && 'A' <= name[0] <= 'Z'
  {
    if |name| > 0 && name[0] < 'A' {
      StartsBelowCapitals(name);
    } else if |name| > 0 && name[0] > 'Z' {
      StartsAboveCapitals(name);
    }
  }

  /** No builtin name starts before `A`. */
  lemma StartsBelowCapitals(name: string)
    requires |name| > 0 && name[0] < 'A'
    ensures Lookup(name) == None
  {
  }

  /** No builtin name starts after `Z`. */
  lemma StartsAboveCapitals(name: string)
    requires |name| > 0 && name[0] > 'Z'
    ensures Lookup(name) == None
  {
  }

  /**
   * The table's quirks: `ConsoleOutput`, `Vector` and `Array` read as impure
   * through a `DmlFunction` although their classes declare themselves pure;
   * the entries registered as `null` (`Si`, `Digamma`, `TriangleWave`) hold
   * no object; and a pure builtin such as `Sin` reads as pure.
   */
  lemma LookupQuirks()
    ensures Lookup("ConsoleOutput") == Some(FunctionObj(Builtin("ConsoleOutput", false)))
    ensures Lookup("Vector") == Some(FunctionObj(Builtin("Vector", false)))
    ensures Lookup("Array") == Some(FunctionObj(Builtin("Array", false)))
    ensures Lookup("Si") == Some(NoObject) && Lookup("Digamma") == Some(NoObject) && Lookup("TriangleWave") == Some(NoObject)
    ensures Lookup("Sin") == Some(FunctionObj(Builtin("Sin", true)))
  {
  }

  /** The names of the bullet behaviours; their classes are not modelled. */
  const Behaviours: set<string> := {
      "Spawn", "RadialSpawn", "MultiSpawn", "BurstSpawn", "TransitionSpeed", "MoveTo",
      "RotateDirection", "RotateAround", "Gravity", "Kill", "KillIfOffscreen"
    }
}
