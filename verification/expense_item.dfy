/** The expense record of iExpense and the small value types the rest of the model shares. */
module ExpenseItems {

  /** Swift's `Optional`. */
  datatype Option<+T> = None | Some(value: T)

  /** The identifier the app draws from `UUID()` when a record is created. Generation is
      outside the model, so an identifier is an opaque value. */
  datatype Uuid = Uuid(bits: nat)

  /** One expense entry (`ExpenseItem`). The Swift field `type` is called `kind` here,
      because `type` is a Dafny keyword. `amount` is a `Double` in the app; no modelled
      operation computes with it, so a `real` stands for it. */
  datatype ExpenseItem = ExpenseItem(id: Uuid, name: string, kind: string, amount: real)
}
