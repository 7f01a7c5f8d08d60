/** The fixed texts of the recommendation messages (main.py:121, 125, 129,
    133), kept apart from the rules so that facts about their characters
    are proved in a small context. The two long messages are written as
    concatenations of short literals: the text is the same, and the
    verifier checks the absence of a line break piece by piece. */
module Messages {

  const EmergencyHead: string := "\U{1F4A1} Tingkatkan dana darurat hingga Rp "
  const EmergencyTail: string := " (6x pengeluaran bulanan)"
  const DebtMessage: string := "\U{26A0}\U{FE0F} Kendalikan " + "rasio utang-"
    + "pendapatan Anda. " + "Pertimbangkan " + "melunasi utang "
    + "berbiaya tinggi " + "terlebih dahulu"
  const SavingsMessage: string := "\U{1F527} Tingkatkan " + "savings rate "
    + "Anda. " + "Idealnya minimal " + "20% dari " + "pendapatan"
  const AllocationHead: string := "\U{1F4CA} Alokasi aset rekomendasi: "
  const EquityTail: string := "% saham, "
  const FixedIncomeTail: string := "% pendapatan tetap"

  lemma DebtMessageSingleLine()
    ensures '\n' !in DebtMessage
  {
  }

  lemma SavingsMessageSingleLine()
    ensures '\n' !in SavingsMessage
  {
  }

  lemma EmergencySingleLine()
    ensures '\n' !in EmergencyHead && '\n' !in EmergencyTail
  {
  }

  lemma AllocationSingleLine()
    ensures '\n' !in AllocationHead && '\n' !in EquityTail && '\n' !in FixedIncomeTail
  {
  }
}
