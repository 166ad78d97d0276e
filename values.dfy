/** The argument values the autotuner sees. Tensors are abstracted to their
    element type, shape and strides; the wrapped kernels never look inside
    them here. */
module Values {

  /** A tensor element type, by name (`torch.float32`, ...). */
  datatype DType = DType(name: string)

  /** `KernelBackend`, the enum stored in configs under `kernel_backend`. */
  datatype KernelBackend = Cuda | Triton

  datatype Tensor = Tensor(dtype: DType, shape: seq<nat>, stride: seq<nat>)

  /** An argument value: the kinds that appear in calls and configs, plus
      `Marker`, an instance of `CutoTuneParameter`. */
  datatype Value =
    | IntVal(i: int)
    | BoolVal(b: bool)
    | StrVal(s: string)
    | BackendVal(backend: KernelBackend)
    | NoneVal
    | Marker
    | TensorVal(tensor: Tensor)

  /** The serialised value of each backend, as `KernelBackend(value)` accepts it. */
  function BackendName(b: KernelBackend): string
  {
    match b
    case Cuda => "cuda"
    case Triton => "triton"
  }
}
