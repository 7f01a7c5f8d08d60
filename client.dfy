/** The flat record `user_data` that main.py's form fills in and
    `calculate_financials` reads. Only the keys the engine reads are kept.
    Every amount comes from a `number_input` with `min_value=0` and so is a
    non-negative integer; the age is an integer. */
module Client {

  /** One row of the goal table: keys 'nama', 'target', 'tahun', 'prioritas'. */
  datatype Goal = Goal(name: string, target: nat, years: nat, priority: int)

  datatype UserData = UserData(
    age: int,                     // 'usia'
    fixedIncome: nat,             // 'pendapatan_tetap'
    variableIncome: nat,          // 'pendapatan_variabel'
    mandatoryExpenses: nat,       // 'pengeluaran_wajib'
    discretionaryExpenses: nat,   // 'pengeluaran_diskresioner'
    savings: nat,                 // 'tabungan'
    investments: nat,             // 'investasi'
    propertyValue: nat,           // 'properti'
    mortgage: nat,                // 'kpr'
    creditCard: nat,              // 'kartu_kredit'
    otherLoans: nat,              // 'pinjaman_lain'
    goals: seq<Goal>)             // 'tujuan'

  function TotalAssets(u: UserData): nat
  {
    u.savings + u.investments + u.propertyValue
  }

  function TotalLiabilities(u: UserData): nat
  {
    u.mortgage + u.creditCard + u.otherLoans
  }

  function TotalIncome(u: UserData): nat
  {
    u.fixedIncome + u.variableIncome
  }

  function TotalExpenses(u: UserData): nat
  {
    u.mandatoryExpenses + u.discretionaryExpenses
  }
}
