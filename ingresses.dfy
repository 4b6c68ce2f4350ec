/**
  The slice of the Kubernetes networking/v1 Ingress object that the redirect
  checker reads, the redirect entries it extracts, and the Go runtime panics
  its indexing and pointer dereferences can raise.
 */
module Ingresses {

  datatype Option<+T> = None | Some(value: T)

  datatype Result<+T, +E> = Ok(value: T) | Err(error: E)

  /** One HTTP path of an ingress rule, reduced to the name of its backend
      service; `None` when the backend is a resource backend, so that
      `Backend.Service` is a nil pointer. */
  datatype HttpPath = HttpPath(service: Option<string>)

  /** One entry of `Spec.Rules`: its host and its `IngressRuleValue.HTTP`
      value, `None` when that pointer is nil. */
  datatype Rule = Rule(host: string, http: Option<seq<HttpPath>>)

  /** An ingress: its namespace, its annotation map and its rules. */
  datatype Ingress = Ingress(namespace: string, annotations: map<string, string>, rules: seq<Rule>)

  /** One redirect, as the five parallel slices hold it at one index:
      source path, target, rule host, backend service name, namespace. */
  datatype Redirect = Redirect(source: string, target: string, host: string, service: string, namespace: string)

  /** The run-time panics the modelled code can raise. */
  datatype Fault =
    | IndexOutOfRange(index: int, length: int)
    | NilDereference
}
