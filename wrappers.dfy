/**
  Small result types shared by the whole shell model.
 */
module Wrappers {

  datatype Option<+T> = None | Some(value: T)

  /** What a command handler hands back to the engine.
      `Ok` and `Err` are the two arms of the handler's `anyhow::Result<String>`;
      `Panic` stands for a Rust panic that unwinds out of the handler and ends the
      shell process. */
  datatype Outcome = Ok(text: string) | Err(message: string) | Panic(message: string)
}
