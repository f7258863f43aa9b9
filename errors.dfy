/** Exceptions of the Python pipeline, as values. Every place where the
    source raises (or lets a library call raise) becomes an `Err` of the
    matching kind instead of a precondition. */
module Errors {

  datatype Error =
    | StopIteration          // next() on an exhausted line iterator
    | IndexError             // list index out of range
    | KeyError               // missing dictionary key, or an unknown workload name
    | ValueError             // int()/float() of a malformed string, np.pad with a negative width
    | ZeroDivisionError      // float division by zero
    | AttributeError         // attribute access on None
    | LiteralError           // ast.literal_eval could not decode the biolatency dump
    | InvalidScriptName      // `raise Exception("Invalid script name")`
    | CalledProcessError(returnCode: int)
    | TypeError              // `None > 0`: a return code that was never set
    | UploadError            // put_object raised
    | SignalError            // os.kill raised
    | SpawnError             // subprocess.Popen could not start the workload

  datatype Option<+T> = None | Some(value: T)

  datatype Result<+T> = Ok(value: T) | Err(error: Error)
}
