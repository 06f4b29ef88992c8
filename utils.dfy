/** Billing arithmetic, renewal-day arithmetic and the category table of
    src/lib/utils.ts. Prices are exact reals; instants are integer
    milliseconds on the local wall clock (local midnight is a multiple of
    `DayMs`), and "now" is a parameter instead of a clock read. */
module Utils {
  import opened Wrappers

  // ---------------------------------------------------------------------
  // Billing cycles

  /** The cycles the forms offer; any other string takes the default branch. */
  const BillingCycles: seq<string> := ["weekly", "monthly", "yearly"]

  /** `calculateMonthlyAmount`: a price per cycle as a price per month. A
      weekly price counts 4.33 weeks to the month; an unknown cycle is read
      as monthly. */
  function MonthlyAmount(price: real, billingCycle: string): (monthly: real)
    ensures price >= 0.0 ==> monthly >= 0.0
    ensures price <= 0.0 ==> monthly <= 0.0
  {
    match billingCycle
    case "weekly" => price * 4.33
    case "yearly" => price / 12.0
    case _ => price
  }

  /** `calculateYearlyAmount`: a price per cycle as a price per year. An
      unknown cycle is read as yearly. */
  function YearlyAmount(price: real, billingCycle: string): (yearly: real)
    ensures price >= 0.0 ==> yearly >= 0.0
    ensures price <= 0.0 ==> yearly <= 0.0
  {
    match billingCycle
    case "weekly" => price * 52.0
    case "monthly" => price * 12.0
    case _ => price
  }

  /** For the monthly and yearly cycles the two conversions agree exactly: a
      year is twelve months. */
  lemma MonthlyAndYearlyAgree(price: real)
    ensures YearlyAmount(price, "monthly") == 12.0 * MonthlyAmount(price, "monthly") == 12.0 * price
    ensures 12.0 * MonthlyAmount(price, "yearly") == YearlyAmount(price, "yearly") == price
  {
  }

  /** For the weekly cycle they do not: 12 * 4.33 = 51.96 weeks a year by the
      monthly figure against 52 by the yearly one. */
  lemma WeeklyConversionsDrift(price: real)
    ensures MonthlyAmount(price, "weekly") == price * 4.33
    ensures YearlyAmount(price, "weekly") == price * 52.0
    ensures 12.0 * MonthlyAmount(price, "weekly") + price * 0.04 == YearlyAmount(price, "weekly")
  {
  }

  /** An unrecognised cycle keeps the price unchanged in both conversions, so
      the monthly figure treats it as monthly and the yearly figure as
      yearly: for any non-zero price they disagree by a factor of twelve. */
  lemma UnknownCycleFallback(price: real, billingCycle: string)
    requires billingCycle !in BillingCycles
    ensures MonthlyAmount(price, billingCycle) == price == MonthlyAmount(price, "monthly")
    ensures YearlyAmount(price, billingCycle) == price == YearlyAmount(price, "yearly")
    ensures price != 0.0 ==> YearlyAmount(price, billingCycle) != 12.0 * MonthlyAmount(price, billingCycle)
  {
    assert billingCycle != "weekly" && billingCycle != "monthly" && billingCycle != "yearly";
  }

  /** The three worked examples: 9.99 monthly, 20 weekly, 120 yearly. */
  lemma BillingExamples()
    ensures MonthlyAmount(9.99, "monthly") == 9.99 && YearlyAmount(9.99, "monthly") == 119.88
    ensures MonthlyAmount(20.0, "weekly") == 86.6 && YearlyAmount(20.0, "weekly") == 1040.0
    ensures MonthlyAmount(120.0, "yearly") == 10.0 && YearlyAmount(120.0, "yearly") == 120.0
  {
  }

  // ---------------------------------------------------------------------
  // Days until renewal

  /** Milliseconds in a day, `1000 * 60 * 60 * 24`. */
  const DayMs: int := 1000 * 60 * 60 * 24

  /** `setHours(0, 0, 0, 0)`: the local midnight that starts the day of `t`. */
  function StartOfDay(t: int): (midnight: int)
    ensures midnight <= t < midnight + DayMs
    ensures midnight % DayMs == 0
  {
    t - t % DayMs
  }

  /** `Math.ceil(ms / DayMs)`: the least whole number of days covering `ms`. */
  function CeilDays(ms: int): (days: int)
    ensures (days - 1) * DayMs < ms <= days * DayMs
  {
    -((-ms) / DayMs)
  }

  /** `getDaysUntilRenewal`: both instants are cut to midnight before the
      ceiling division, so the result is exactly the number of calendar days
      between them (negative once the date has passed). */
  function DaysUntilRenewal(nextBillingDate: int, now: int): (days: int)
    ensures days == nextBillingDate / DayMs - now / DayMs
  {
    CeilDays(StartOfDay(nextBillingDate) - StartOfDay(now))
  }

  /** Quotient and remainder of `k` days plus `r` milliseconds into a day. */
  lemma DayDivision(k: int, r: int)
    requires 0 <= r < DayMs
    ensures (k * DayMs + r) / DayMs == k
    ensures (k * DayMs + r) % DayMs == r
  {
  }

  /** A billing date on the same calendar day as now gives 0, whatever the
      time of day of either. */
  lemma SameDayIsZero(nextBillingDate: int, now: int)
    requires StartOfDay(nextBillingDate) == StartOfDay(now)
    ensures DaysUntilRenewal(nextBillingDate, now) == 0
  {
  }

  /** A billing date `n` local midnights after (or, for negative `n`, before)
      today's gives `n`, at any time of day on either side. */
  lemma DaysAfterMidnights(today: int, n: int, nowTime: int, billingTime: int)
    requires today % DayMs == 0
    requires 0 <= nowTime < DayMs && 0 <= billingTime < DayMs
    ensures DaysUntilRenewal(today + n * DayMs + billingTime, today + nowTime) == n
  {
    var d := today / DayMs;
    DayDivision(d, nowTime);
    DayDivision(d + n, billingTime);
    assert today + n * DayMs + billingTime == (d + n) * DayMs + billingTime;
  }

  /** The result depends only on the two calendar days. */
  lemma TimeOfDayIrrelevant(next1: int, next2: int, now1: int, now2: int)
    requires StartOfDay(next1) == StartOfDay(next2)
    requires StartOfDay(now1) == StartOfDay(now2)
    ensures DaysUntilRenewal(next1, now1) == DaysUntilRenewal(next2, now2)
  {
  }

  // ---------------------------------------------------------------------
  // Categories

  datatype Category = Category(value: string, title: string, color: string)

  /** `CATEGORIES`. */
  const Categories: seq<Category> := [
    Category("entertainment", "Entertainment", "#ef4444"),
    Category("productivity", "Productivity", "#6366f1"),
    Category("health", "Health", "#10b981"),
    Category("finance", "Finance", "#f59e0b"),
    Category("other", "Other", "#71717a")
  ]

  /** The position of the fallback entry, `CATEGORIES[4]`. */
  const OtherIndex: nat := 4

  /** The fallback colour. */
  const OtherColor: string := "#71717a"

  /** The table's shape: five entries whose values, titles (the `label` field) and colours are
      pairwise distinct, with "other" at index 4. */
  lemma CategoryTable()
    ensures |Categories| == 5 && OtherIndex < |Categories|
    ensures Categories[OtherIndex].value == "other" && Categories[OtherIndex].color == OtherColor
    ensures forall i, j | 0 <= i < j < |Categories| ::
              Categories[i].value != Categories[j].value
              && Categories[i].title != Categories[j].title
              && Categories[i].color != Categories[j].color
  {
  }

  /** `cats.find(c => c.value === value)`: the first entry with that value. */
  function FindCategory(cats: seq<Category>, value: string): (found: Option<Category>)
    ensures found.None? <==> forall c | c in cats :: c.value != value
    ensures found.Some? ==> exists i | 0 <= i < |cats| :: cats[i] == found.value
                              && found.value.value == value
                              && forall j | 0 <= j < i :: cats[j].value != value
  {
    if cats == [] then None
    else if cats[0].value == value then Some(cats[0])
    else
      var rest := FindCategory(cats[1..], value);
      assert forall c | c in cats[1..] :: c in cats;
      if rest.Some? then
        var i :| 0 <= i < |cats[1..]| && cats[1..][i] == rest.value && rest.value.value == value
                 && forall j | 0 <= j < i :: cats[1..][j].value != value;
        assert cats[i + 1] == rest.value;
        rest
      else rest
  }

  /** `CATEGORIES.find(c => c.value === value) || CATEGORIES[4]`: the entry
      for a known value, and the "other" entry for any unknown one. */
  function CategoryOrOther(value: string): (c: Category)
    ensures c in Categories
    ensures (exists d | d in Categories :: d.value == value) ==> c.value == value
    ensures (forall d | d in Categories :: d.value != value) ==> c == Categories[OtherIndex]
  {
    FindCategory(Categories, value).GetOr(Categories[OtherIndex])
  }

  /** Only "other" and the unknown values get the fallback colour. */
  lemma FallbackColorOnlyForOther(value: string)
    ensures CategoryOrOther(value).color == OtherColor
            <==> value == "other" || forall d | d in Categories :: d.value != value
  {
    CategoryTable();
    var c := CategoryOrOther(value);
    if c.color == OtherColor {
      var i :| 0 <= i < |Categories| && Categories[i] == c;
      assert i == OtherIndex;
    }
  }
}
