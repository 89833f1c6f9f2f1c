/** What several modules share. */
module Common {

  datatype Option<T> = None | Some(value: T)

  /** Names, labels and messages are only copied and compared, so a number stands for each text. */
  type Text = int

  const EMPTY_TEXT: Text := 0
}
