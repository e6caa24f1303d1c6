/**
 * csvApp.StudentRecord: a name and four scores, each held in a JavaFX property
 * cell that the setters overwrite in place. The cells are the class's fields.
 */
module StudentRecords {

  /**
   * A Java double, kept as its 64-bit IEEE 754 pattern. Nothing here computes
   * with scores, so the pattern is all the model needs.
   */
  datatype Double = Double(bits: bv64)

  /** The five cells of a record, as a value. */
  datatype StudentValue = StudentValue(
    name: string,
    math: Double,
    science: Double,
    english: Double,
    history: Double)

  class StudentRecord {
    var name: string
    var math: Double
    var science: Double
    var english: Double
    var history: Double

    /** The current contents of the five cells. */
    ghost function Value(): StudentValue
      reads this
    {
      StudentValue(name, math, science, english, history)
    }

    /** Each cell starts with the matching argument; nothing is checked. */
    constructor (name: string, math: Double, science: Double, english: Double, history: Double)
      ensures Value() == StudentValue(name, math, science, english, history)
    {
      this.name := name;
      this.math := math;
      this.science := science;
      this.english := english;
      this.history := history;
    }

    method GetName() returns (r: string)
      ensures r == Value().name
    {
      r := name;
    }

    method GetMath() returns (r: Double)
      ensures r == Value().math
    {
      r := math;
    }

    method GetScience() returns (r: Double)
      ensures r == Value().science
    {
      r := science;
    }

    method GetEnglish() returns (r: Double)
      ensures r == Value().english
    {
      r := english;
    }

    method GetHistory() returns (r: Double)
      ensures r == Value().history
    {
      r := history;
    }

    /** Each setter overwrites its own cell and no other. */
    method SetName(v: string)
      modifies this`name
      ensures Value() == old(Value()).(name := v)
    {
      name := v;
    }

    method SetMath(v: Double)
      modifies this`math
      ensures Value() == old(Value()).(math := v)
    {
      math := v;
    }

    method SetScience(v: Double)
      modifies this`science
      ensures Value() == old(Value()).(science := v)
    {
      science := v;
    }

    method SetEnglish(v: Double)
      modifies this`english
      ensures Value() == old(Value()).(english := v)
    {
      english := v;
    }

    method SetHistory(v: Double)
      modifies this`history
      ensures Value() == old(Value()).(history := v)
    {
      history := v;
    }
  }

  /**
   * What a caller can rely on from the contracts alone: a getter after a
   * setter gives the value set, and the other cells keep what the
   * constructor put there.
   */
  method SetThenGet(name: string, a: Double, b: Double, c: Double, d: Double, v: Double, w: string)
    returns (math: Double, science: Double, newName: string, english: Double)
    ensures math == v && science == b && english == c && newName == w
  {
    var r := new StudentRecord(name, a, b, c, d);
    r.SetMath(v);
    math := r.GetMath();
    science := r.GetScience();
    r.SetName(w);
    newName := r.GetName();
    english := r.GetEnglish();
  }
}
