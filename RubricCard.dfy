/** The numbers a rubric card displays: the pass/fail bin, the score the
    grade is taken from, the letter grade, the bar width and the score text.
    A card is either a plain 0..100 card or a binary one. */
module RubricCard {

  /** 1 for a passing score (50 or more), 0 otherwise. */
  function Bin(score: real): (b: int)
    ensures b == 1 <==> score >= 50.0
    ensures b == 0 <==> score < 50.0
  {
    if score >= 50.0 then 1 else 0
  }

  /** The score the grade is computed from: 0 or 100 on a binary card, the
      score itself otherwise. */
  function ShownGradeScore(score: real, binary: bool): (s: real)
    ensures binary ==> s == 0.0 || s == 100.0
    ensures binary ==> (s == 100.0 <==> score >= 50.0)
    ensures !binary ==> s == score
  {
    if binary then Bin(score) as real * 100.0 else score
  }

  datatype Grade = A | B | C | D

  function GradeOf(shown: real): (g: Grade)
    ensures g == A <==> shown >= 85.0
    ensures g == B <==> 70.0 <= shown < 85.0
    ensures g == C <==> 55.0 <= shown < 70.0
    ensures g == D <==> shown < 55.0
  {
    if shown >= 85.0 then A else if shown >= 70.0 then B else if shown >= 55.0 then C else D
  }

  /** A is best. */
  function Rank(g: Grade): nat
  {
    match g
    case A => 3
    case B => 2
    case C => 1
    case D => 0
  }

  /** A higher shown score never gets a worse grade. */
  lemma GradeMonotone(x: real, y: real)
    requires x <= y
    ensures Rank(GradeOf(x)) <= Rank(GradeOf(y))
  {
  }

  /** On a binary card the grade is A for a passing score and D otherwise. */
  lemma BinaryGrade(score: real)
    ensures GradeOf(ShownGradeScore(score, true)) == (if score >= 50.0 then A else D)
  {
  }

  /** The score text, `bin/1` or `score/100`. */
  datatype Fraction = Fraction(numerator: real, denominator: int)

  datatype Card = Card(bin: int, shown: real, grade: Grade, barWidth: real, scoreText: Fraction)

  /** Everything one card computes from its score. */
  function CardFor(score: real, binary: bool): (c: Card)
    ensures c.bin == Bin(score) && c.shown == ShownGradeScore(score, binary)
    ensures c.grade == GradeOf(c.shown)
    ensures binary ==> c.barWidth == c.bin as real * 100.0 && c.scoreText == Fraction(c.bin as real, 1)
    ensures binary ==> c.barWidth == (if score >= 50.0 then 100.0 else 0.0)
    ensures binary ==> c.grade == (if score >= 50.0 then A else D)
    ensures !binary ==> c.barWidth == score && c.scoreText == Fraction(score, 100)
    ensures 0.0 <= score <= 100.0 ==> 0.0 <= c.barWidth <= 100.0
  {
    var b := Bin(score);
    var shown := ShownGradeScore(score, binary);
    Card(b, shown, GradeOf(shown), if binary then b as real * 100.0 else score,
      if binary then Fraction(b as real, 1) else Fraction(score, 100))
  }
}
