/** The names the qualification rules mention; every other string is an Other. */
module Roles {

  /** Images, build stages, environments and base images. */
  datatype Name =
    | Backend | Frontend | Postgres | Ingress
    | BackendDeps | BackendBuilder | FrontendDeps | FrontendBuilder | Buildkit
    | PrFastBackend | Configuration | ImageBuildBackend | ImageBuildFrontend | ProvenancePair
    | BaseNode | BaseNginx | BasePostgres | BaseNodeCi | SecurityBackend | SecurityFrontend | Secrets
    | SupportPostgres | SupportIngress | SupportBuildkit
    | Node | Nginx | NodeCi
    | OtherName(text: string)

  /** What one scan of an environment covers. */
  datatype Scope = Rootfs | GlobalNpm | Component | Tools | OtherScope(text: string)

  datatype ToolId = Trivy | ImageTrivy | Compose | Gitleaks | OtherTool(text: string)

  /** The component whose dependencies an environment installs. */
  datatype ComponentId = BackendTree | FrontendTree | NoTree | OtherTree(text: string)

  /** A file below a run's temporary directory or checkout, or anywhere else. */
  datatype Place =
    | EnvironmentTrivy(temp: string) | HomecloudTrivy(temp: string)
    | ComposeBinary(temp: string) | GitleaksBinary(temp: string)
    | NodeModules(workspace: string, component: ComponentId)
    | Elsewhere(path: string)
}
