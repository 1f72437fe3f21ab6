/**
 * The deadline chip: how far away a program's deadline is decides the chip's look and its
 * label. `daysUntil` is the whole number of days from now to the deadline (negative once it
 * has passed) and the formatted date is an opaque string; both are computed by the caller.
 */
module DeadlineChip {
  import opened Text

  datatype Variant = Default | Secondary | Destructive | Outline

  /** The extra colour class the chip gets, if any. */
  datatype Tint = NoTint | Amber | Green

  datatype ChipStyle = ChipStyle(variant: Variant, tint: Tint)

  /** The four urgency bands of the chip's if/else chain, the overdue case split off. */
  datatype Tier = Overdue | Critical | Soon | Safe

  function TierOf(daysUntil: int): (t: Tier)
    ensures t == Overdue <==> daysUntil < 0
    ensures t == Critical <==> 0 <= daysUntil < 15
    ensures t == Soon <==> 15 <= daysUntil < 30
    ensures t == Safe <==> 30 <= daysUntil
  {
    if daysUntil < 0 then Overdue
    else if daysUntil < 15 then Critical
    else if daysUntil < 30 then Soon
    else Safe
  }

  /** The if/else chain choosing the badge variant and the colour class. */
  function Style(daysUntil: int): (s: ChipStyle)
    ensures daysUntil < 15 <==> s == ChipStyle(Destructive, NoTint)
    ensures 15 <= daysUntil < 30 <==> s == ChipStyle(Secondary, Amber)
    ensures 30 <= daysUntil <==> s == ChipStyle(Secondary, Green)
    ensures s.variant != Default && s.variant != Outline
  {
    if daysUntil < 0 then ChipStyle(Destructive, NoTint)
    else if daysUntil < 15 then ChipStyle(Destructive, NoTint)
    else if daysUntil < 30 then ChipStyle(Secondary, Amber)
    else ChipStyle(Secondary, Green)
  }

  /** The chip's text. */
  function Label(daysUntil: int, formattedDeadline: string): string
  {
    if daysUntil < 0 then "Overdue: " + formattedDeadline
    else if daysUntil == 0 then "Due today"
    else if daysUntil == 1 then "Due tomorrow"
    else Decimal(daysUntil) + " days until " + formattedDeadline
  }

  /**
   * The chip's look follows the tiers, except that an overdue deadline looks exactly like a
   * critical one; distinct tiers otherwise look different.
   */
  lemma StyleFollowsTier(d: int, e: int)
    ensures TierOf(d) == TierOf(e) ==> Style(d) == Style(e)
    ensures Style(d) == Style(e) <==> TierOf(d) == TierOf(e) || {TierOf(d), TierOf(e)} == {Overdue, Critical}
    ensures TierOf(-1) == Overdue && TierOf(0) == Critical && TierOf(14) == Critical
    ensures TierOf(15) == Soon && TierOf(29) == Soon && TierOf(30) == Safe
  {
  }

  /** The closer the deadline, the more urgent the look: the look never relaxes as the days shrink. */
  lemma StyleIsMonotone(d: int, e: int)
    requires d <= e
    ensures Urgency(Style(d)) >= Urgency(Style(e))
  {
  }

  function Urgency(s: ChipStyle): nat
  {
    match s.tint
    case NoTint => if s.variant == Destructive then 2 else 0
    case Amber => 1
    case Green => 0
  }

  /** An overdue chip shows the date but not how many days overdue. */
  lemma OverdueLabelHidesDays(d: int, e: int, formatted: string)
    requires d < 0 && e < 0
    ensures Label(d, formatted) == Label(e, formatted)
    ensures Label(d, formatted)[..9] == "Overdue: "
  {
  }

  /**
   * For deadlines not yet passed the label tells the day count apart: two labels for the same
   * date are equal only for the same count, and the leading digits read back as that count.
   */
  lemma {:induction false} LabelDeterminesDays(d: int, e: int, formatted: string)
    requires d >= 0 && e >= 0
    requires Label(d, formatted) == Label(e, formatted)
    ensures d == e
  {
    if d >= 2 && e >= 2 {
      var sd, se := Decimal(d), Decimal(e);
      var tail := " days until " + formatted;
      assert Label(d, formatted) == sd + tail;
      assert Label(e, formatted) == se + tail;
      assert |sd| == |se|;
      assert sd == (sd + tail)[..|sd|] == (se + tail)[..|se|] == se;
      DecimalInjective(d, e);
    } else if d >= 2 {
      DigitsNotWords(d, formatted);
    } else if e >= 2 {
      DigitsNotWords(e, formatted);
    }
  }

  /** A counted label starts with a digit; "Due today" and "Due tomorrow" do not. */
  lemma DigitsNotWords(d: int, formatted: string)
    requires d >= 2
    ensures Label(d, formatted) != "Due today" && Label(d, formatted) != "Due tomorrow"
    ensures IsDigit(Label(d, formatted)[0])
  {
    assert Label(d, formatted)[0] == Decimal(d)[0];
  }

  /** The counted label begins with the count in decimal, which reads back as `daysUntil`. */
  lemma CountedLabelShowsDays(d: int, formatted: string)
    requires d >= 2
    ensures Label(d, formatted)[..|Decimal(d)|] == Decimal(d)
    ensures ParseDecimal(Label(d, formatted)[..|Decimal(d)|]) == d
  {
    ParseDecimalInvertsDecimal(d);
  }
}
